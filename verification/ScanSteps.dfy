/** One reconcile of a scan, field by field: exactly when it changes the phase, the result, an
    annotation, the retries or the index, and to what, in terms of what the cluster holds. */
module ScanSteps {
  import opened Options
  import opened ScanTypes
  import opened GatherResults
  import opened ScanPhases

  /******* What a reconcile finds *******/

  // Validation has nothing to complain about, so the phase gets its turn.
  predicate GoesOn(o: Observation) {
    && o.settings == Settled && o.nodesListed && o.timeoutParses
    && (o.handler.NodeScan? ==> o.handler.nodes != [] && !(o.handler.strict && o.handler.unschedulableNode))
  }

  predicate SettingsInvalid(o: Observation) {
    o.settings == InvalidScanType || o.settings == InvalidStorageSize
  }

  predicate NoNodes(o: Observation) {
    o.settings == Settled && o.nodesListed && o.handler.NodeScan? && o.handler.nodes == []
  }

  predicate SettledBefore(pods: seq<Pod>, i: nat)
    requires i <= |pods|
  {
    forall j | 0 <= j < i :: pods[j] == PodSucceeded || pods[j] == PodUnschedulable(true)
  }

  // The first pod that is not settled is of this kind.
  predicate FirstUnsettled(pods: seq<Pod>, pod: Pod) {
    exists i | 0 <= i < |pods| :: pods[i] == pod && SettledBefore(pods, i)
  }

  // A timeout is found, in the phase that looks for it.
  predicate TimesOut(s: Scan, o: Observation) {
    s.phase == Running && GoesOn(o) && FirstUnsettled(o.pods, PodTimedOut)
  }

  // The results are there and enough is known, and counting the checks works.
  predicate Aggregates(s: Scan, o: Observation) {
    && s.phase == Aggregating && GoesOn(o) && (o.handler.CelScan? || o.aggregation == AggregatorFinished)
    && CanEnd(o.handler, o.labelled) && !o.countFails
  }

  // In PENDING, with nothing wrong.
  predicate Starts(s: Scan, o: Observation) {
    s.phase == Pending && GoesOn(o) && !o.profileLookupFails
  }

  lemma {:induction false} UnsettledDecides(pods: seq<Pod>)
    ensures WorkloadOf(pods) == WorkloadMissing <==> FirstUnsettled(pods, PodMissing)
    ensures WorkloadOf(pods) == WorkloadTimedOut <==> FirstUnsettled(pods, PodTimedOut)
    ensures WorkloadOf(pods) == WorkloadFinished <==> SettledBefore(pods, |pods|)
  {
    if pods == [] {
    } else {
      UnsettledDecides(pods[1..]);
      FirstUnsettledOfRest(pods, PodMissing);
      FirstUnsettledOfRest(pods, PodTimedOut);
      assert forall i | 0 < i < |pods| :: pods[i] == pods[1..][i - 1];
    }
  }

  lemma FirstUnsettledOfRest(pods: seq<Pod>, pod: Pod)
    requires pods != [] && pod != PodSucceeded && pod != PodUnschedulable(true)
    ensures FirstUnsettled(pods, pod) <==>
            pods[0] == pod || (SettledBefore(pods, 1) && FirstUnsettled(pods[1..], pod))
  {
    var rest := pods[1..];
    if SettledBefore(pods, 1) {
      if i :| 0 <= i < |rest| && rest[i] == pod && SettledBefore(rest, i) {
        assert pods[i + 1] == pod && SettledBefore(pods, i + 1) by {
          assert forall j | 0 < j < i + 1 :: pods[j] == rest[j - 1];
        }
      }
      if i :| 0 <= i < |pods| && pods[i] == pod && SettledBefore(pods, i) {
        assert rest[i - 1] == pod && SettledBefore(rest, i - 1);
      }
    } else if pods[0] == pod {
      assert SettledBefore(pods, 0);
    }
  }

  /******* The phase *******/

  // Which edge is taken, exactly when.
  ghost predicate PhaseChanges(s: Scan, o: Observation, s': Scan) {
    && (s'.phase == Pending && s.phase != Pending <==>
          s.phase == NoPhase || (s.phase == Done && GoesOn(o) && s.rescan && !o.cleanupFails))
    && (s'.phase == Launching && s.phase != Launching <==>
          || (Starts(s, o) && !s.rescan && !s.timedOut)
          || (s.phase == Running && GoesOn(o) && FirstUnsettled(o.pods, PodMissing)))
    && (s'.phase == Running && s.phase != Running <==> s.phase == Launching && GoesOn(o) && o.launch == Launched)
    && (s'.phase == Aggregating && s.phase != Aggregating <==>
          s.phase == Running && GoesOn(o) && SettledBefore(o.pods, |o.pods|))
    && s'.phase != NoPhase
  }

  // What ends a scan, or changes the result of one that has ended.
  predicate EndsInError(s: Scan, o: Observation) {
    && s.phase != NoPhase
    && (|| SettingsInvalid(o)
        || (s.phase == Pending && GoesOn(o) && o.profileLookupFails)
        || (s.phase == Launching && GoesOn(o) && o.launch == LaunchRefused)
        || (TimesOut(s, o) && s.timedOut)
        || (s.phase == Aggregating && GoesOn(o) && !o.handler.CelScan? && o.aggregation == ScanFailed))
  }

  predicate EndsWithoutNodes(s: Scan, o: Observation) {
    s.phase != NoPhase && NoNodes(o)
  }

  predicate EndsGathered(s: Scan, o: Observation) {
    Aggregates(s, o) && s.counted
  }

  // The result is written together with the phase: that of the end, or none when a run begins.
  ghost predicate ResultChanges(s: Scan, o: Observation, s': Scan) {
    && (s'.phase == Done <==>
          || EndsInError(s, o) || EndsWithoutNodes(s, o) || EndsGathered(s, o)
          || (s.phase == Done && s'.phase != Pending))
    && (EndsInError(s, o) ==> s'.result == Error)
    && (EndsWithoutNodes(s, o) ==> s'.result == NotApplicable)
    && (EndsGathered(s, o) ==> IsOutcome(o.handler, o.labelled, s'.result))
    && (s.phase == Pending && s'.phase == Launching ==> s'.result == NotAvailable)
    && (s.phase == Done && s'.phase == Pending ==> s'.result == NotAvailable)
    && (s'.phase == s.phase && !EndsInError(s, o) && !EndsWithoutNodes(s, o) ==> s'.result == s.result)
    && (s'.phase == Running || s'.phase == Aggregating ==> s'.result == s.result)
  }

  /******* Annotations, retries, index *******/

  ghost predicate AnnotationsChange(s: Scan, o: Observation, s': Scan) {
    && (s'.rescan <==>
          if s.rescan then !Starts(s, o) else TimesOut(s, o) && !s.timedOut && s.remainingRetries > 0)
    && (s'.timedOut <==> if s.timedOut then !Starts(s, o) else TimesOut(s, o))
    && (s'.counted <==>
          if s.counted then !(Starts(s, o) && (s.rescan || s.timedOut)) else Aggregates(s, o))
  }

  ghost predicate NumbersChange(s: Scan, o: Observation, s': Scan) {
    && s'.maxRetryOnTimeout == s.maxRetryOnTimeout
    && s'.remainingRetries == (if s.phase == NoPhase then s.maxRetryOnTimeout
                               else if !(TimesOut(s, o) && s.timedOut) then s.remainingRetries
                               else if s.remainingRetries > 0 then s.remainingRetries - 1
                               else s.maxRetryOnTimeout)
    && s'.currentIndex == (if !(s.phase == Done && s'.phase == Pending) then s.currentIndex
                           else if s.currentIndex == 0x7FFF_FFFF_FFFF_FFFF then 0 else s.currentIndex + 1)
  }

  // What one reconcile does, and when.
  ghost predicate StepsExactly(s: Scan, o: Observation, s': Scan) {
    PhaseChanges(s, o, s') && ResultChanges(s, o, s') && AnnotationsChange(s, o, s') && NumbersChange(s, o, s')
  }

  lemma ValidatesExactly(s: Scan, o: Observation)
    ensures Validate(s, o).None? <==> s.phase != NoPhase && GoesOn(o)
    ensures s.phase != NoPhase && SettingsInvalid(o) ==> Reconcile(s, o) == s.(phase := Done, result := Error)
    ensures s.phase != NoPhase && NoNodes(o) ==> Reconcile(s, o) == s.(phase := Done, result := NotApplicable)
    ensures s.phase != NoPhase && !GoesOn(o) && !SettingsInvalid(o) && !NoNodes(o) ==> Reconcile(s, o) == s
  {
  }

  lemma {:induction false} StoppedSteps(s: Scan, o: Observation)
    requires s.phase == NoPhase || !GoesOn(o)
    ensures StepsExactly(s, o, Reconcile(s, o))
  {
    ValidatesExactly(s, o);
  }

  lemma {:induction false} PendingSteps(s: Scan, o: Observation)
    requires s.phase == Pending && GoesOn(o)
    ensures StepsExactly(s, o, Reconcile(s, o))
  {
    ValidatesExactly(s, o);
    assert Reconcile(s, o) == PendingStep(s, o);
  }

  lemma {:induction false} LaunchingSteps(s: Scan, o: Observation)
    requires s.phase == Launching && GoesOn(o)
    ensures StepsExactly(s, o, Reconcile(s, o))
  {
    ValidatesExactly(s, o);
    assert Reconcile(s, o) == LaunchingStep(s, o);
  }

  lemma {:induction false} RunningSteps(s: Scan, o: Observation)
    requires s.phase == Running && GoesOn(o)
    ensures StepsExactly(s, o, Reconcile(s, o))
  {
    ValidatesExactly(s, o);
    UnsettledDecides(o.pods);
    assert Reconcile(s, o) == RunningStep(s, o);
  }

  lemma {:induction false} AggregatingSteps(s: Scan, o: Observation)
    requires s.phase == Aggregating && GoesOn(o)
    ensures StepsExactly(s, o, Reconcile(s, o))
  {
    ValidatesExactly(s, o);
    assert Reconcile(s, o) == AggregatingStep(s, o);
    if o.handler.CelScan? || o.aggregation == AggregatorFinished {
      FinishSteps(s, o);
    }
  }

  lemma {:induction false} FinishSteps(s: Scan, o: Observation)
    requires s.phase == Aggregating && GoesOn(o) && (o.handler.CelScan? || o.aggregation == AggregatorFinished)
    ensures StepsExactly(s, o, FinishStep(s, o))
  {
    GatherExactly(o.handler, o.labelled);
    var s' := FinishStep(s, o);
    if !Aggregates(s, o) {
      assert s' == s;
    } else if !s.counted {
      assert s' == s.(counted := true);
    } else {
      assert s'.phase == Done && IsOutcome(o.handler, o.labelled, s'.result);
    }
  }

  lemma {:induction false} DoneSteps(s: Scan, o: Observation)
    requires s.phase == Done && GoesOn(o)
    ensures StepsExactly(s, o, Reconcile(s, o))
  {
    ValidatesExactly(s, o);
    assert Reconcile(s, o) == DoneStep(s, o);
  }

  lemma {:induction false} ReconcileStepsExactly(s: Scan, o: Observation)
    ensures StepsExactly(s, o, Reconcile(s, o))
  {
    if !GoesOn(o) {
      StoppedSteps(s, o);
    } else {
      match s.phase {
        case NoPhase => StoppedSteps(s, o);
        case Pending => PendingSteps(s, o);
        case Launching => LaunchingSteps(s, o);
        case Running => RunningSteps(s, o);
        case Aggregating => AggregatingSteps(s, o);
        case Done => DoneSteps(s, o);
      }
    }
  }
}
