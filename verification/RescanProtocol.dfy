/** Rescans and controller reconciles of one remediation, step by step and in any order: the
    aggregator writes spec and state separately, the controller works on snapshots, and every
    write is refused when what it was based on has changed since. */
module RescanProtocol {
  import opened Options
  import opened Remediations
  import RemediationController

  // Between its two writes the aggregator only remembers the state it is going to set.
  datatype Aggregator = Idle | WritesSpec(rewrite: Rewrite, read: nat) | WritesState(state: State)

  datatype Controller = Waiting
                      | Acting(instance: Remediation, read: nat)
                      | Reporting(instance: Remediation, read: nat, failure: Option<Failure>)

  // `done` is everything the controller did in the cluster so far.
  datatype System = System(stored: Remediation, version: nat, aggregator: Aggregator, controller: Controller,
                           done: seq<Operation>)

  datatype Step = RescanStarts(parsed: KubeObject) | SpecIsWritten | StateIsWritten
                | ControllerReads | ControllerActs(findings: Findings) | StatusIsWritten

  // A write of the whole object keeps the stored state; a status write keeps all the rest.
  function Update(s: System, rem: Remediation, read: nat): System {
    if read != s.version then s else s.(stored := rem.(state := s.stored.state), version := s.version + 1)
  }

  function UpdateState(s: System, state: State, read: nat): System {
    if read != s.version then s else s.(stored := s.stored.(state := state), version := s.version + 1)
  }

  function Next(s: System, step: Step): System {
    match step
    case RescanStarts(parsed) =>
      if !s.aggregator.Idle? then s
      else (match RescanRewrite(s.stored, parsed)
            case None => s
            case Some(w) => s.(aggregator := WritesSpec(w, s.version)))
    case SpecIsWritten =>
      if !s.aggregator.WritesSpec? then s
      else
        var w, read := s.aggregator.rewrite, s.aggregator.read;
        Update(s, w.spec, read).(aggregator := if read == s.version then WritesState(w.state) else Idle)
    case StateIsWritten =>
      // Done on a fresh copy, and again until it succeeds.
      if !s.aggregator.WritesState? then s
      else UpdateState(s, s.aggregator.state, s.version).(aggregator := Idle)
    case ControllerReads =>
      if !s.controller.Waiting? then s else s.(controller := Acting(s.stored, s.version))
    case ControllerActs(findings) =>
      if !s.controller.Acting? then s else Acted(s, findings)
    case StatusIsWritten =>
      if !s.controller.Reporting? then s
      else
        var c := s.controller;
        UpdateState(s, Classify(c.instance, c.failure), c.read).(controller := Waiting)
  }

  function Acted(s: System, findings: Findings): System
    requires s.controller.Acting?
  {
    Performed(s, Act(s.controller.instance, findings))
  }

  function Performed(s: System, action: Action): System
    requires s.controller.Acting?
  {
    var c := s.controller;
    match action
    case Stop => s.(controller := Waiting)
    case Write(rem) =>
      var written := if c.instance.state == NoState then UpdateState(s, Pending, c.read) else Update(s, rem, c.read);
      written.(controller := Waiting)
    case Finish(done, failure) =>
      s.(controller := Reporting(c.instance, c.read, failure), done := s.done + if done.Some? then [done.value] else [])
  }

  function Run(s: System, steps: seq<Step>): System {
    if steps == [] then s else Next(Run(s, steps[..|steps| - 1]), steps[|steps| - 1])
  }

  // Throughout the run the remediation is reported as applied or outdated.
  predicate StaysInUse(s: System, steps: seq<Step>) {
    InUse(s.stored) && forall k | 0 <= k <= |steps| :: InUse(Run(s, steps[..k]).stored)
  }

  /******* What is applied does not drift *******/

  predicate Holds(r: Remediation, apply: bool, payload: KubeObject) {
    r.apply == apply && Applicable(r) == Some(payload)
  }

  predicate AggregatorOk(s: System, apply: bool, payload: KubeObject) {
    match s.aggregator
    case Idle => Stable(s.stored)
    case WritesSpec(w, read) =>
      && Stable(s.stored) && read <= s.version
      && Holds(w.spec, apply, payload) && w.spec.outdated.Some? && w.state == Outdated
    case WritesState(state) => s.stored.outdated.Some? && state == Outdated
  }

  predicate ControllerOk(s: System, apply: bool, payload: KubeObject) {
    match s.controller
    case Waiting => true
    case Acting(instance, read) => SnapshotOk(s, instance, read, apply, payload)
    case Reporting(instance, read, _) => SnapshotOk(s, instance, read, apply, payload)
  }

  predicate SnapshotOk(s: System, instance: Remediation, read: nat, apply: bool, payload: KubeObject) {
    Holds(instance, apply, payload) && read <= s.version && (read == s.version ==> instance == s.stored)
  }

  predicate DoneOk(s: System, apply: bool, payload: KubeObject) {
    forall i | 0 <= i < |s.done| :: s.done[i] == if apply then Put(payload) else Remove(payload)
  }

  ghost predicate Invariant(s: System, apply: bool, payload: KubeObject) {
    && Holds(s.stored, apply, payload)
    && AggregatorOk(s, apply, payload) && ControllerOk(s, apply, payload) && DoneOk(s, apply, payload)
  }

  lemma {:induction false} ControllerKeepsInvariant(s: System, step: Step, apply: bool, payload: KubeObject)
    requires step.ControllerReads? || step.ControllerActs? || step.StatusIsWritten?
    requires Invariant(s, apply, payload) && InUse(s.stored) && InUse(Next(s, step).stored)
    ensures Invariant(Next(s, step), apply, payload)
  {
    if step.ControllerActs? && s.controller.Acting? {
      ActingKeepsInvariant(s, step.findings, apply, payload);
    }
  }

  // A reconcile writes back what it read but for marks, and applies or removes what is applicable.
  predicate Faithful(instance: Remediation, action: Action) {
    match action
    case Stop => true
    case Write(rem) =>
      && rem.apply == instance.apply && rem.current == instance.current && rem.outdated == instance.outdated
      && (rem.state == instance.state || instance.state == NoState)
    case Finish(done, _) =>
      done.Some? ==> Applicable(instance).Some? &&
                     done.value == if instance.apply then Put(Applicable(instance).value)
                                   else Remove(Applicable(instance).value)
  }

  lemma {:induction false} ActIsFaithful(instance: Remediation, findings: Findings)
    ensures Faithful(instance, Act(instance, findings))
  {
  }

  lemma {:induction false} ActingKeepsInvariant(s: System, findings: Findings, apply: bool, payload: KubeObject)
    requires Invariant(s, apply, payload) && InUse(s.stored) && s.controller.Acting?
    ensures Invariant(Acted(s, findings), apply, payload)
  {
    ActIsFaithful(s.controller.instance, findings);
    PerformingKeepsInvariant(s, Act(s.controller.instance, findings), apply, payload);
  }

  lemma {:induction false} PerformingKeepsInvariant(s: System, action: Action, apply: bool, payload: KubeObject)
    requires Invariant(s, apply, payload) && InUse(s.stored) && s.controller.Acting?
    requires Faithful(s.controller.instance, action)
    ensures Invariant(Performed(s, action), apply, payload)
  {
    assert DoneOk(Performed(s, action), apply, payload);
  }

  lemma {:induction false} StepKeepsInvariant(s: System, step: Step, apply: bool, payload: KubeObject)
    requires Invariant(s, apply, payload) && InUse(s.stored) && InUse(Next(s, step).stored)
    ensures Invariant(Next(s, step), apply, payload)
  {
    if !(step.RescanStarts? || step.SpecIsWritten? || step.StateIsWritten?) {
      ControllerKeepsInvariant(s, step, apply, payload);
    }
  }

  lemma {:induction false} RunKeepsInvariant(s: System, steps: seq<Step>, apply: bool, payload: KubeObject)
    requires Invariant(s, apply, payload) && StaysInUse(s, steps)
    ensures Invariant(Run(s, steps), apply, payload)
  {
    if steps == [] {
    } else {
      var init := steps[..|steps| - 1];
      assert forall k | 0 <= k <= |init| :: init[..k] == steps[..k];
      RunKeepsInvariant(s, init, apply, payload);
      assert steps[..|steps|] == steps && InUse(Run(s, steps[..|steps|]).stored);
      assert InUse(Run(s, steps[..|init|]).stored);
      StepKeepsInvariant(Run(s, init), steps[|steps| - 1], apply, payload);
    }
  }

  // Any number of rescans and reconciles, in any order, on snapshots of any age: as long as the
  // remediation stays in use, the decision to apply it and the applied content are those it
  // started with, and that content is all the controller ever applied.
  lemma NoDrift(s: System, steps: seq<Step>)
    requires s.aggregator.Idle? && s.controller.Waiting? && s.done == []
    requires Stable(s.stored) && StaysInUse(s, steps)
    ensures SameInCluster(s.stored, Run(s, steps).stored)
    ensures forall op | op in Run(s, steps).done ::
              op == if s.stored.apply then Put(Applicable(s.stored).value) else Remove(Applicable(s.stored).value)
  {
    RunKeepsInvariant(s, steps, s.stored.apply, Applicable(s.stored).value);
  }

  // What keeps a remediation in use: nothing it waits for, and no permanent failure.
  predicate Plain(r: Remediation) {
    InUse(r) && r.apply && !r.dependencies && !r.unsetValue && !r.valueRequired
  }

  predicate Undisturbed(s: System) {
    && Plain(s.stored)
    && (s.aggregator.WritesSpec? ==> Plain(s.aggregator.rewrite.spec) && s.aggregator.rewrite.state == Outdated)
    && (s.aggregator.WritesState? ==> s.aggregator.state == Outdated)
    && (!s.controller.Waiting? ==> Plain(s.controller.instance))
    && (s.controller.Reporting? ==> s.controller.failure.None?)
  }

  predicate Harmless(step: Step) {
    step.ControllerActs? ==> step.findings.failure.None? || IsRetriable(step.findings.failure.value)
  }

  lemma {:induction false} StepKeepsUndisturbed(s: System, step: Step)
    requires Undisturbed(s) && Harmless(step)
    ensures Undisturbed(Next(s, step))
  {
  }

  lemma {:induction false} RunKeepsUndisturbed(s: System, steps: seq<Step>)
    requires Undisturbed(s) && forall step | step in steps :: Harmless(step)
    ensures Undisturbed(Run(s, steps))
  {
    if steps == [] {
    } else {
      var init, last := steps[..|steps| - 1], steps[|steps| - 1];
      assert steps == init + [last];
      RunKeepsUndisturbed(s, init);
      StepKeepsUndisturbed(Run(s, init), last);
    }
  }

  // So a remediation that waits for nothing does not drift as long as nothing fails for good.
  lemma {:induction false} NothingDriftsUndisturbed(s: System, steps: seq<Step>)
    requires s.aggregator.Idle? && s.controller.Waiting? && s.done == []
    requires Stable(s.stored) && Plain(s.stored) && forall step | step in steps :: Harmless(step)
    ensures SameInCluster(s.stored, Run(s, steps).stored) && InUse(Run(s, steps).stored)
    ensures forall op | op in Run(s, steps).done :: op == Put(Applicable(s.stored).value)
  {
    forall k | 0 <= k <= |steps|
      ensures InUse(Run(s, steps[..k]).stored)
    {
      assert forall step | step in steps[..k] :: step in steps;
      RunKeepsUndisturbed(s, steps[..k]);
    }
    assert steps[..|steps|] == steps;
    NoDrift(s, steps);
  }

  // In the cluster this means: once applied, the content that was applicable at the start is there,
  // whatever contents later scans came up with.
  lemma ClusterDoesNotDrift(s: System, steps: seq<Step>, objects: RemediationController.Objects)
    requires s.aggregator.Idle? && s.controller.Waiting? && s.done == []
    requires Stable(s.stored) && Plain(s.stored) && forall step | step in steps :: Harmless(step)
    requires Run(s, steps).done != []
    ensures RemediationController.Has(RemediationController.Play(objects, Run(s, steps).done),
                                      Applicable(s.stored).value)
  {
    NothingDriftsUndisturbed(s, steps);
    RemediationController.AppliedIsThere(objects, Run(s, steps).done, Applicable(s.stored).value);
  }

  /******* When the aggregator crashes between its writes *******/

  // The next rescan is safe again exactly when the state did not have to change. Otherwise the
  // remediation still counts as applied, and a rescan with yet another content takes what is
  // not applied for what is.
  lemma {:induction false} CrashIsSafeExactlyWhenOutdated(found: Remediation, parsed: KubeObject)
    requires Stable(found) && PayloadDiffers(found, parsed)
    ensures Stable(Crashed(found, parsed)) <==> found.state == Outdated
    ensures (forall next :: SameInCluster(found, Rescanned(Crashed(found, parsed), next))) <==> found.state == Outdated
  {
    RescanKeepsExactlyStable(Crashed(found, parsed));
    StableIsKept(found, parsed);
    assert SameInCluster(found, Crashed(found, parsed));
  }

  // A reconcile that completes in between repairs it.
  lemma {:induction false} ReconcileRepairsCrash(found: Remediation, parsed: KubeObject)
    requires Stable(found) && PayloadDiffers(found, parsed) && found.apply
    ensures Stable(Crashed(found, parsed).(state := Classify(Crashed(found, parsed), None)))
  {
  }
}
