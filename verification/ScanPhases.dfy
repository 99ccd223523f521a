/** One reconcile of a scan as a step of its phase machine, and what holds over every run:
    phases, final results, the run index, and the accounting of retries after timeouts. */
module ScanPhases {
  import opened Options
  import opened ScanTypes
  import opened GatherResults

  // The part of a scan that the controller reads and writes. The three flags are annotations;
  // the phase, result, retries and index are status; the last field is specification.
  datatype Scan = Scan(phase: Phase, result: Result, rescan: bool, timedOut: bool, counted: bool,
                       remainingRetries: int, currentIndex: int, maxRetryOnTimeout: int)

  // The first thing validation stops at.
  datatype Settings = DefaultsMissing | InvalidScanType | InvalidStorageSize | Settled

  datatype Launch = LaunchFailed | LaunchRefused | Launched

  // The pod of one node: settled when it succeeded, or is unschedulable and that was recorded.
  datatype Pod = PodMissing | PodUnschedulable(recorded: bool) | PodTimedOut | PodUnknown | PodRunning | PodSucceeded

  datatype Workload = WorkloadUnknown | WorkloadMissing | WorkloadTimedOut | WorkloadRunning | WorkloadFinished

  datatype Aggregation = ConfigMapsMissing | ScanFailed | AggregatorUnknown | AggregatorRunning | AggregatorFinished

  // Everything one reconcile finds out from the cluster.
  datatype Observation = Observation(settings: Settings, nodesListed: bool, handler: Handler, timeoutParses: bool,
                                     profileLookupFails: bool, launch: Launch, pods: seq<Pod>,
                                     aggregation: Aggregation, labelled: Option<nat>, countFails: bool,
                                     cleanupFails: bool)

  const MAX_INT64 := 0x7FFF_FFFF_FFFF_FFFF

  /******* Running: the pods, node by node *******/

  predicate IsSettled(pod: Pod) {
    pod == PodSucceeded || pod == PodUnschedulable(true)
  }

  function WorkloadOf(pods: seq<Pod>): Workload {
    if pods == [] then WorkloadFinished
    else
      match pods[0]
      case PodMissing => WorkloadMissing
      case PodUnschedulable(recorded) => if recorded then WorkloadOf(pods[1..]) else WorkloadUnknown
      case PodTimedOut => WorkloadTimedOut
      case PodUnknown => WorkloadUnknown
      case PodRunning => WorkloadRunning
      case PodSucceeded => WorkloadOf(pods[1..])
  }

  // The first pod that is not settled decides, so a pod that timed out goes unnoticed behind one
  // that still runs.
  lemma {:induction false} FirstUnsettledDecides(pods: seq<Pod>)
    ensures WorkloadOf(pods) == WorkloadFinished <==> forall i | 0 <= i < |pods| :: IsSettled(pods[i])
    ensures WorkloadOf(pods) == WorkloadTimedOut <==>
            exists i | 0 <= i < |pods| :: pods[i] == PodTimedOut && forall j | 0 <= j < i :: IsSettled(pods[j])
  {
    if pods == [] {
    } else {
      var rest := pods[1..];
      FirstUnsettledDecides(rest);
      assert forall i | 0 < i < |pods| :: pods[i] == rest[i - 1];
      if IsSettled(pods[0]) {
        if i :| 0 <= i < |rest| && rest[i] == PodTimedOut && forall j | 0 <= j < i :: IsSettled(rest[j]) {
          assert pods[i + 1] == PodTimedOut && forall j | 0 <= j < i + 1 :: IsSettled(pods[j]);
        }
        if i :| 0 <= i < |pods| && pods[i] == PodTimedOut && forall j | 0 <= j < i :: IsSettled(pods[j]) {
          assert rest[i - 1] == PodTimedOut && forall j | 0 <= j < i - 1 :: IsSettled(rest[j]);
        }
      }
    }
  }

  /******* The step *******/

  function Fail(s: Scan): Scan {
    s.(phase := Done, result := Error)
  }

  // Validation before any phase: either the scan as it leaves it, or None to go on.
  function Validate(s: Scan, o: Observation): Option<Scan> {
    if s.phase == NoPhase then Some(s.(phase := Pending, remainingRetries := s.maxRetryOnTimeout))
    else match o.settings
      case DefaultsMissing => Some(s)
      case InvalidScanType => Some(Fail(s))
      case InvalidStorageSize => Some(Fail(s))
      case Settled =>
        if !o.nodesListed then Some(s)
        else if o.handler.NodeScan? && o.handler.nodes == [] then Some(s.(phase := Done, result := NotApplicable))
        else if o.handler.NodeScan? && o.handler.strict && o.handler.unschedulableNode then Some(s)
        else if !o.timeoutParses then Some(s)
        else None
  }

  function PendingStep(s: Scan, o: Observation): Scan {
    if o.profileLookupFails then Fail(s)
    else if s.rescan then s.(rescan := false, timedOut := false, counted := false)
    else if s.timedOut then s.(timedOut := false, counted := false)
    else s.(phase := Launching, result := NotAvailable)
  }

  function LaunchingStep(s: Scan, o: Observation): Scan {
    match o.launch
    case LaunchFailed => s
    case LaunchRefused => Fail(s)
    case Launched => s.(phase := Running)
  }

  // A timeout is first annotated, asking for a rescan if retries remain, and charged when it is
  // found again.
  function RunningStep(s: Scan, o: Observation): Scan {
    match WorkloadOf(o.pods)
    case WorkloadUnknown => s
    case WorkloadMissing => s.(phase := Launching)
    case WorkloadTimedOut =>
      if !s.timedOut then s.(timedOut := true, rescan := s.rescan || s.remainingRetries > 0)
      else Fail(s).(remainingRetries := if s.remainingRetries > 0 then s.remainingRetries - 1 else s.maxRetryOnTimeout)
    case WorkloadRunning => s
    case WorkloadFinished => s.(phase := Aggregating)
  }

  function AggregatingStep(s: Scan, o: Observation): Scan {
    if o.handler.CelScan? then FinishStep(s, o)
    else match o.aggregation
      case ConfigMapsMissing => s
      case ScanFailed => Fail(s)
      case AggregatorUnknown => s
      case AggregatorRunning => s
      case AggregatorFinished => FinishStep(s, o)
  }

  function FinishStep(s: Scan, o: Observation): Scan {
    var g := Gather(o.handler, o.labelled);
    if (!g.ready && !g.err) || o.countFails then s
    else if !s.counted then s.(counted := true)
    else s.(phase := Done, result := g.result)
  }

  function DoneStep(s: Scan, o: Observation): Scan {
    if o.cleanupFails || !s.rescan then s
    else s.(phase := Pending, result := NotAvailable,
            currentIndex := if s.currentIndex == MAX_INT64 then 0 else s.currentIndex + 1)
  }

  function PhaseStep(s: Scan, o: Observation): Scan {
    match s.phase
    case NoPhase => s
    case Pending => PendingStep(s, o)
    case Launching => LaunchingStep(s, o)
    case Running => RunningStep(s, o)
    case Aggregating => AggregatingStep(s, o)
    case Done => DoneStep(s, o)
  }

  function Reconcile(s: Scan, o: Observation): Scan {
    match Validate(s, o)
    case Some(s') => s'
    case None => PhaseStep(s, o)
  }

  /******* Runs *******/

  // Between reconciles a user may ask for a rescan.
  datatype Event = Reconciled(o: Observation) | UserRescan

  function Apply(s: Scan, e: Event): Scan {
    match e
    case Reconciled(o) => Reconcile(s, o)
    case UserRescan => s.(rescan := true)
  }

  function Run(s: Scan, events: seq<Event>): Scan {
    if events == [] then s else Apply(Run(s, events[..|events| - 1]), events[|events| - 1])
  }

  // A scan as it is created.
  predicate Fresh(s: Scan) {
    && s.phase == NoPhase && s.result == NoResult && !s.rescan && !s.timedOut && !s.counted
    && s.remainingRetries == 0 && s.currentIndex == 0 && s.maxRetryOnTimeout >= 0
  }

  /******* Phases and results *******/

  // The edges of the phase machine. Validation may end a scan from any phase.
  predicate Edge(from: Phase, to: Phase) {
    || from == to
    || (from == NoPhase && to == Pending)
    || (from == Pending && to == Launching)
    || (from == Launching && to == Running)
    || (from == Running && (to == Launching || to == Aggregating))
    || (from == Done && to == Pending)
    || (from != NoPhase && to == Done)
  }

  predicate DoneIsFinal(s: Scan) {
    s.phase == Done ==> Final(s.result)
  }

  lemma StepFollowsEdges(s: Scan, o: Observation)
    ensures Edge(s.phase, Reconcile(s, o).phase)
    ensures s.phase == Done && Reconcile(s, o).phase == Pending ==> s.rescan
    ensures DoneIsFinal(s) ==> DoneIsFinal(Reconcile(s, o))
  {
    if o.handler.NodeScan? ==> o.handler.nodes != [] {
      var g := Gather(o.handler, o.labelled);
      if g.ready || g.err {
        GatheredIsFinal(o.handler, o.labelled);
      }
    }
  }

  // Whenever a scan is DONE its result is one a user can act on.
  lemma {:induction false} DoneHasFinalResult(s: Scan, events: seq<Event>)
    requires Fresh(s)
    ensures DoneIsFinal(Run(s, events))
  {
    if events == [] {
    } else {
      var init, e := events[..|events| - 1], events[|events| - 1];
      DoneHasFinalResult(s, init);
      if e.Reconciled? {
        StepFollowsEdges(Run(s, init), e.o);
      }
    }
  }

  /******* The index counts the resets *******/

  predicate Resets(s: Scan, s': Scan) {
    s.phase == Done && s'.phase == Pending
  }

  function ResetCount(s: Scan, events: seq<Event>): nat {
    if events == [] then 0
    else
      var before := Run(s, events[..|events| - 1]);
      ResetCount(s, events[..|events| - 1]) + if Resets(before, Apply(before, events[|events| - 1])) then 1 else 0
  }

  lemma {:induction false} IndexCountsResets(s: Scan, events: seq<Event>)
    requires Fresh(s)
    ensures Run(s, events).currentIndex == ResetCount(s, events) % (MAX_INT64 + 1)
    ensures 0 <= Run(s, events).currentIndex <= MAX_INT64
  {
    if events == [] {
    } else {
      var init, e := events[..|events| - 1], events[|events| - 1];
      IndexCountsResets(s, init);
      IndexStep(Run(s, init), e);
      WrapAround(ResetCount(s, init));
    }
  }

  lemma IndexStep(s: Scan, e: Event)
    ensures Apply(s, e).currentIndex ==
            if !Resets(s, Apply(s, e)) then s.currentIndex
            else if s.currentIndex == MAX_INT64 then 0 else s.currentIndex + 1
  {
  }

  lemma WrapAround(n: nat)
    ensures (n + 1) % 0x8000_0000_0000_0000 ==
            if n % 0x8000_0000_0000_0000 == 0x7FFF_FFFF_FFFF_FFFF then 0 else n % 0x8000_0000_0000_0000 + 1
  {
  }

  /******* Retries *******/

  // A reconcile that finds an annotated timeout again and gives its verdict.
  predicate Verdict(s: Scan, e: Event) {
    && e.Reconciled? && Validate(s, e.o).None?
    && s.phase == Running && s.timedOut && WorkloadOf(e.o.pods) == WorkloadTimedOut
  }

  // Timeouts charged since the retries were last restored, which happens when one finds none left.
  function Charged(s: Scan, events: seq<Event>): nat {
    if events == [] then 0
    else
      var init := events[..|events| - 1];
      var before := Run(s, init);
      if !Verdict(before, events[|events| - 1]) then Charged(s, init)
      else if before.remainingRetries > 0 then Charged(s, init) + 1
      else 0
  }

  // What a step may do to the retries and to the rescan annotation.
  lemma RetryStep(s: Scan, e: Event)
    ensures Apply(s, e).maxRetryOnTimeout == s.maxRetryOnTimeout
    ensures s.phase != NoPhase && Apply(s, e).remainingRetries != s.remainingRetries ==> Verdict(s, e)
    ensures e.Reconciled? && !s.rescan && Apply(s, e).rescan ==>
              s.phase == Running && s.remainingRetries > 0 && WorkloadOf(e.o.pods) == WorkloadTimedOut
  {
  }

  predicate Accounted(s: Scan, max: int, charged: nat) {
    && s.maxRetryOnTimeout == max && 0 <= s.remainingRetries
    && if s.phase == NoPhase then charged == 0 else charged + s.remainingRetries == max
  }

  lemma StepAccounts(s: Scan, e: Event, max: int, charged: nat)
    requires Accounted(s, max, charged) && 0 <= max
    ensures Accounted(Apply(s, e), max,
                      if !Verdict(s, e) then charged else if s.remainingRetries > 0 then charged + 1 else 0)
  {
    RetryStep(s, e);
  }

  // In every reachable scan, charged and remaining retries add up to the configured maximum.
  lemma {:induction false} RetriesAccounted(s: Scan, events: seq<Event>)
    requires Fresh(s)
    ensures Accounted(Run(s, events), s.maxRetryOnTimeout, Charged(s, events))
  {
    if events == [] {
    } else {
      var init := events[..|events| - 1];
      RetriesAccounted(s, init);
      StepAccounts(Run(s, init), events[|events| - 1], s.maxRetryOnTimeout, Charged(s, init));
    }
  }

  /******* How often a scan runs again *******/

  // How many more times a scan can be reset before a user asks for it, if no rescan is left unpaid.
  // A run that has timed out without asking for a rescan has no other to come.
  function Potential(s: Scan): int {
    match s.phase
    case Done => if s.rescan then 1 + s.remainingRetries else 0
    case Aggregating => if s.rescan then 1 + s.remainingRetries else 0
    case Launching => if s.timedOut && !s.rescan then 0 else s.remainingRetries
    case Running => if s.timedOut && !s.rescan then 0 else s.remainingRetries
    case _ => s.remainingRetries
  }

  // Left alone, a scan carries the rescan annotation while it is launched or run only because a
  // timeout was found with retries left, and they are still there.
  predicate Grounded(s: Scan) {
    && s.phase != NoPhase && 0 <= s.remainingRetries && 0 <= s.maxRetryOnTimeout
    && (s.rescan && (s.phase == Launching || s.phase == Running) ==> s.timedOut && s.remainingRetries > 0)
  }

  // A pending rescan survives the end of a run that did not pay for it with a retry: the pods
  // finished after all, or the scan was ended early by an error or by validation.
  predicate Unpaid(s: Scan, s': Scan) {
    && s.rescan && (s.phase == Pending || s.phase == Launching || s.phase == Running)
    && (s'.phase == Aggregating || s'.phase == Done)
    && s'.remainingRetries == s.remainingRetries
  }

  // A reconcile lets the scan run more often than its retries allow exactly when it leaves a
  // rescan unpaid.
  lemma PotentialStep(s: Scan, o: Observation)
    requires Grounded(s)
    ensures var s' := Reconcile(s, o);
            && Grounded(s')
            && (Potential(s') + (if Resets(s, s') then 1 else 0) <= Potential(s) <==> !Unpaid(s, s'))
            && (Unpaid(s, s') ==> Potential(s') + (if Resets(s, s') then 1 else 0) == Potential(s) + 1)
  {
  }

  // What leaves a pending rescan unpaid, as seen before the step.
  predicate EndsEarly(s: Scan, o: Observation) {
    || o.settings == InvalidScanType || o.settings == InvalidStorageSize
    || (o.settings == Settled && o.nodesListed && o.handler.NodeScan? && o.handler.nodes == [])
    || (Validate(s, o).None? && match s.phase
        case Pending => o.profileLookupFails
        case Launching => o.launch == LaunchRefused
        case Running => WorkloadOf(o.pods) == WorkloadFinished
        case _ => false)
  }

  lemma UnpaidWhenEndedEarly(s: Scan, o: Observation)
    requires Grounded(s)
    ensures Unpaid(s, Reconcile(s, o)) <==>
            s.rescan && (s.phase == Pending || s.phase == Launching || s.phase == Running) && EndsEarly(s, o)
  {
  }

  function UnpaidCount(s: Scan, events: seq<Event>): nat {
    if events == [] then 0
    else
      var before := Run(s, events[..|events| - 1]);
      UnpaidCount(s, events[..|events| - 1]) + if Unpaid(before, Apply(before, events[|events| - 1])) then 1 else 0
  }

  predicate LeftAlone(events: seq<Event>) {
    forall i | 0 <= i < |events| :: events[i].Reconciled?
  }

  lemma {:induction false} ResetsAreBounded(s: Scan, events: seq<Event>)
    requires Grounded(s) && LeftAlone(events)
    ensures Grounded(Run(s, events))
    ensures ResetCount(s, events) + Potential(Run(s, events)) <= Potential(s) + UnpaidCount(s, events)
  {
    if events == [] {
    } else {
      var init, e := events[..|events| - 1], events[|events| - 1];
      assert forall i | 0 <= i < |init| :: init[i] == events[i];
      ResetsAreBounded(s, init);
      assert events[|events| - 1].Reconciled?;
      PotentialStep(Run(s, init), e.o);
    }
  }

  // Without a user and without a pending rescan, a scan is reset at most as often as it has
  // retries left, plus once for every rescan left unpaid.
  lemma ResetsBoundedByRetries(s: Scan, events: seq<Event>)
    requires Grounded(s) && !s.rescan && LeftAlone(events)
    ensures ResetCount(s, events) <= s.remainingRetries + UnpaidCount(s, events)
  {
    ResetsAreBounded(s, events);
  }

  /******* The bound is attained *******/

  lemma {:induction false} RunConcat(s: Scan, first: seq<Event>, more: seq<Event>)
    ensures Run(s, first + more) == Run(Run(s, first), more)
    ensures ResetCount(s, first + more) == ResetCount(s, first) + ResetCount(Run(s, first), more)
    ensures UnpaidCount(s, first + more) == UnpaidCount(s, first) + UnpaidCount(Run(s, first), more)
  {
    if more == [] {
      assert first + more == first;
    } else {
      var init := more[..|more| - 1];
      RunConcat(s, first, init);
      assert (first + more)[..|first + more| - 1] == first + init;
    }
  }

  lemma OneEvent(s: Scan, e: Event)
    ensures Run(s, [e]) == Apply(s, e)
    ensures ResetCount(s, [e]) == if Resets(s, Apply(s, e)) then 1 else 0
    ensures UnpaidCount(s, [e]) == if Unpaid(s, Apply(s, e)) then 1 else 0
  {
    assert [e][..0] == [] && Run(s, []) == s;
  }

  // A cluster in which every pod times out.
  const TIMING_OUT := Observation(Settled, true, PlatformScan(NotReady), true, false, Launched, [PodTimedOut],
                                  ScanFailed, Some(0), false, false)

  // How far a scan is from the next reset.
  function Distance(s: Scan): nat {
    match s.phase
    case NoPhase => 7
    case Pending => if s.rescan || s.timedOut then 6 else 5
    case Launching => 4
    case Running => if s.timedOut then 2 else 3
    case Aggregating => 2
    case Done => 1
  }

  lemma TimingOutMakesProgress(s: Scan)
    requires Grounded(s) && Potential(s) > 0
    ensures var s' := Reconcile(s, TIMING_OUT);
            && Grounded(s') && !Unpaid(s, s')
            && Potential(s') + (if Resets(s, s') then 1 else 0) == Potential(s)
            && (Resets(s, s') || Distance(s') < Distance(s))
  {
    assert WorkloadOf([PodTimedOut]) == WorkloadTimedOut;
  }

  // From every grounded scan there is a run that leaves no rescan unpaid and makes as many resets as
  // its potential allows.
  lemma {:induction false} PotentialIsAttained(s: Scan) returns (events: seq<Event>)
    requires Grounded(s)
    ensures LeftAlone(events) && UnpaidCount(s, events) == 0 && ResetCount(s, events) == Potential(s)
    decreases Potential(s), Distance(s)
  {
    if Potential(s) == 0 {
      events := [];
    } else {
      var e := Reconciled(TIMING_OUT);
      TimingOutMakesProgress(s);
      var rest := PotentialIsAttained(Reconcile(s, TIMING_OUT));
      OneEvent(s, e);
      RunConcat(s, [e], rest);
      events := [e] + rest;
    }
  }

  /******* Retries do not bound the resets by themselves *******/

  const LOOKUP_FAILS := TIMING_OUT.(profileLookupFails := true)

  // A rescan that a failed profile lookup leaves unpaid can be left unpaid again and again.
  lemma {:induction false} FailedLookupsReset(s: Scan, n: nat) returns (events: seq<Event>)
    requires s.phase == Pending && s.rescan
    ensures LeftAlone(events) && |events| == 2 * n && ResetCount(s, events) == n
    ensures Run(s, events).phase == Pending && Run(s, events).rescan
    ensures Run(s, events).remainingRetries == s.remainingRetries
  {
    if n == 0 {
      events := [];
    } else {
      var init := FailedLookupsReset(s, n - 1);
      var t := Run(s, init);
      var failed := Reconcile(t, LOOKUP_FAILS);
      OneEvent(t, Reconciled(LOOKUP_FAILS));
      RunConcat(s, init, [Reconciled(LOOKUP_FAILS)]);
      OneEvent(failed, Reconciled(TIMING_OUT));
      RunConcat(s, init + [Reconciled(LOOKUP_FAILS)], [Reconciled(TIMING_OUT)]);
      events := init + [Reconciled(LOOKUP_FAILS)] + [Reconciled(TIMING_OUT)];
    }
  }

  // A scan that will be reset at all comes to PENDING with its rescan annotation in place.
  lemma {:induction false} ReachesPendingRescan(s: Scan) returns (events: seq<Event>)
    requires Grounded(s) && (s.rescan || Potential(s) > 0)
    ensures LeftAlone(events) && Run(s, events).phase == Pending && Run(s, events).rescan
    decreases Distance(s)
  {
    if s.phase == Pending && s.rescan {
      events := [];
    } else {
      var e := Reconciled(TIMING_OUT);
      TimingOutMakesProgress(s);
      OneEvent(s, e);
      var s' := Reconcile(s, TIMING_OUT);
      if Resets(s, s') {
        events := [e];
      } else {
        var rest := ReachesPendingRescan(s');
        RunConcat(s, [e], rest);
        events := [e] + rest;
      }
    }
  }

  ghost predicate CanReset(s: Scan, n: nat) {
    exists events: seq<Event> :: LeftAlone(events) && ResetCount(s, events) >= n
  }

  // Left alone, a scan can be reset any number of times, however few its retries, exactly when it can
  // be reset at all: when it has a rescan pending or one to come.
  lemma {:induction false} ResetsUnboundedExactly(s: Scan)
    requires Grounded(s)
    ensures (forall n: nat :: CanReset(s, n)) <==> s.rescan || Potential(s) > 0
    ensures CanReset(s, 1) <==> s.rescan || Potential(s) > 0
  {
    if s.rescan || Potential(s) > 0 {
      forall n: nat
        ensures CanReset(s, n)
      {
        var first := ReachesPendingRescan(s);
        var more := FailedLookupsReset(Run(s, first), n);
        RunConcat(s, first, more);
        assert LeftAlone(first + more) && ResetCount(s, first + more) >= n;
      }
    } else {
      forall events: seq<Event> | LeftAlone(events)
        ensures ResetCount(s, events) == 0
      {
        StaysQuiet(s, events);
      }
      assert !CanReset(s, 1);
    }
  }

  predicate Quiet(s: Scan) {
    Grounded(s) && !s.rescan && Potential(s) == 0
  }

  lemma QuietStep(s: Scan, o: Observation)
    requires Quiet(s)
    ensures Quiet(Reconcile(s, o)) && !Resets(s, Reconcile(s, o))
  {
    PotentialStep(s, o);
    RetryStep(s, Reconciled(o));
  }

  lemma {:induction false} StaysQuiet(s: Scan, events: seq<Event>)
    requires Quiet(s) && LeftAlone(events)
    ensures Quiet(Run(s, events)) && ResetCount(s, events) == 0
  {
    if events == [] {
    } else {
      var init := events[..|events| - 1];
      assert forall i | 0 <= i < |init| :: init[i] == events[i];
      StaysQuiet(s, init);
      assert events[|events| - 1].Reconciled?;
      QuietStep(Run(s, init), events[|events| - 1].o);
    }
  }
}
