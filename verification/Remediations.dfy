/** A remediation as it is stored: what the aggregator does to it when a scan runs again, what
    its controller does with it, and when a rescan leaves what is applied alone. */
module Remediations {
  import opened Options

  datatype Kind = MachineConfig | KubeletConfig | OtherKind(kind: string)

  // The content is a map from paths to values. No annotations at all is not an empty map of them.
  datatype KubeObject = KubeObject(kind: Kind, name: string, content: map<string, string>,
                                   annotations: Option<map<string, string>>)

  datatype State = NoState | Pending | NotApplied | Applied | Outdated | Error | MissingDependencies | NeedsReview

  // `labelled` is the label of outdated remediations; the flags after it are annotations.
  datatype Remediation = Remediation(apply: bool, current: Option<KubeObject>, outdated: Option<KubeObject>,
                                     state: State, labelled: bool, dependencies: bool, dependenciesMet: bool,
                                     unsetValue: bool, valueRequired: bool, optional: bool)

  // Outdated content is used for as long as there is any.
  function Applicable(r: Remediation): Option<KubeObject> {
    if r.outdated.Some? then r.outdated else r.current
  }

  predicate HasUnmetDependencies(r: Remediation) {
    r.dependencies && !r.dependenciesMet
  }

  function Normalized(payload: Option<KubeObject>): Option<KubeObject> {
    if payload.Some? && payload.value.annotations.None? then Some(payload.value.(annotations := Some(map[])))
    else payload
  }

  predicate PayloadDiffers(r: Remediation, parsed: KubeObject) {
    Normalized(r.current) != Normalized(Some(parsed))
  }

  predicate InUse(r: Remediation) {
    r.state == Applied || r.state == Outdated
  }

  /******* A rescan *******/

  // What the aggregator writes: first the spec and the labels, then the state.
  datatype Rewrite = Rewrite(spec: Remediation, state: State)

  function RescanRewrite(found: Remediation, parsed: KubeObject): Option<Rewrite> {
    if !InUse(found) then
      Some(Rewrite(found.(apply := false, current := Some(parsed), outdated := None, labelled := false), Pending))
    else if !PayloadDiffers(found, parsed) then None
    else
      var kept := if found.state == Applied then found.current else found.outdated;
      Some(Rewrite(found.(current := Some(parsed), outdated := kept, labelled := true), Outdated))
  }

  // A rescan from start to end.
  function Rescanned(found: Remediation, parsed: KubeObject): Remediation {
    match RescanRewrite(found, parsed)
    case None => found
    case Some(w) => w.spec.(state := w.state)
  }

  // One that ended after the first write: the spec was rewritten and the state was not.
  function Crashed(found: Remediation, parsed: KubeObject): Remediation {
    match RescanRewrite(found, parsed)
    case None => found
    case Some(w) => w.spec.(state := found.state)
  }

  predicate SameInCluster(r: Remediation, r': Remediation) {
    r'.apply == r.apply && Applicable(r') == Applicable(r)
  }

  // An applied remediation with nothing outdated, or an outdated one with outdated content.
  predicate Stable(r: Remediation) {
    || (r.state == Applied && r.current.Some? && (r.outdated.None? || r.outdated == r.current))
    || (r.state == Outdated && r.outdated.Some?)
  }

  function Different(payload: Option<KubeObject>): (other: KubeObject)
    ensures payload != Some(other) && Normalized(payload) != Normalized(Some(other))
  {
    match payload
    case None => KubeObject(MachineConfig, "", map[], None)
    case Some(o) =>
      assert |o.name + "x"| != |o.name|;
      o.(name := o.name + "x")
  }

  // Whatever the new content, a rescan leaves the decision and the applied content alone exactly
  // when the remediation is stable; and it stays stable.
  lemma {:induction false} RescanKeepsExactlyStable(r: Remediation)
    ensures (forall parsed :: SameInCluster(r, Rescanned(r, parsed))) <==> Stable(r)
    ensures Stable(r) ==> forall parsed :: Stable(Rescanned(r, parsed))
  {
    if Stable(r) {
      forall parsed
        ensures SameInCluster(r, Rescanned(r, parsed)) && Stable(Rescanned(r, parsed))
      {
        StableIsKept(r, parsed);
      }
    } else {
      UnstableIsNotKept(r, Different(if InUse(r) && r.current.Some? then r.current else Applicable(r)));
    }
  }

  lemma {:induction false} StableIsKept(r: Remediation, parsed: KubeObject)
    requires Stable(r)
    ensures SameInCluster(r, Rescanned(r, parsed)) && Stable(Rescanned(r, parsed))
  {
  }

  lemma {:induction false} UnstableIsNotKept(r: Remediation, parsed: KubeObject)
    requires !Stable(r)
    requires parsed == Different(if InUse(r) && r.current.Some? then r.current else Applicable(r))
    ensures !SameInCluster(r, Rescanned(r, parsed))
  {
  }

  // A remediation that is not in use loses its decision: it is as if it had just been created.
  lemma {:induction false} RescanStartsOver(r: Remediation, parsed: KubeObject)
    ensures !InUse(r) <==> Rescanned(r, parsed).state == Pending
    ensures !InUse(r) ==> !Rescanned(r, parsed).apply && Applicable(Rescanned(r, parsed)) == Some(parsed)
  {
  }

  /******* A rescan, field by field *******/

  // No annotations are as good as an empty map of them.
  function AnnotationsOf(o: KubeObject): map<string, string> {
    match o.annotations
    case None => map[]
    case Some(annotations) => annotations
  }

  // The same object as far as it matters for a rescan.
  predicate SamePayload(current: Option<KubeObject>, parsed: KubeObject) {
    && current.Some?
    && current.value.kind == parsed.kind
    && current.value.name == parsed.name
    && current.value.content == parsed.content
    && AnnotationsOf(current.value) == AnnotationsOf(parsed)
  }

  lemma {:induction false} DiffersExactly(r: Remediation, parsed: KubeObject)
    ensures PayloadDiffers(r, parsed) <==> !SamePayload(r.current, parsed)
  {
  }

  // These fields are kept.
  predicate KeepsAnnotations(r: Remediation, r': Remediation) {
    && r'.dependencies == r.dependencies && r'.dependenciesMet == r.dependenciesMet
    && r'.unsetValue == r.unsetValue && r'.valueRequired == r.valueRequired && r'.optional == r.optional
  }

  // An applied remediation, outdated or not, is left as it is exactly if its payload is the one
  // parsed. Otherwise what is applied is kept next to the new content and the remediation is outdated.
  lemma {:induction false} AppliedOutdatedExactly(found: Remediation, parsed: KubeObject)
    requires found.state == Applied || found.state == Outdated
    ensures var r := Rescanned(found, parsed);
            && (r == found <==> SamePayload(found.current, parsed))
            && (r != found ==>
                  && r.state == Outdated && r.labelled && r.apply == found.apply
                  && r.current == Some(parsed)
                  && r.outdated == (if found.state == Applied then found.current else found.outdated)
                  && KeepsAnnotations(found, r))
    ensures Crashed(found, parsed) == Rescanned(found, parsed).(state := found.state)
  {
    DiffersExactly(found, parsed);
    if SamePayload(found.current, parsed) {
      assert RescanRewrite(found, parsed) == None;
    } else {
      var w := RescanRewrite(found, parsed).value;
      assert w.state == Outdated && w.spec.current == Some(parsed);
      assert SamePayload(w.spec.current, parsed);
    }
  }

  // Any other is as if just created, but for its annotations.
  lemma {:induction false} OthersStartOver(found: Remediation, parsed: KubeObject)
    requires found.state != Applied && found.state != Outdated
    ensures var r := Rescanned(found, parsed);
            && r.state == Pending && !r.labelled && !r.apply && r.current == Some(parsed) && r.outdated == None
            && KeepsAnnotations(found, r)
    ensures Crashed(found, parsed) == Rescanned(found, parsed).(state := found.state)
  {
  }

  // A remediation as the API server holds it, or a copy of it of whatever age.
  datatype Stored = Stored(rem: Remediation, version: nat)

  predicate IsCurrent(name: string, copy: Stored, rems: map<string, Stored>) {
    name in rems && copy.version == rems[name].version
  }

  // A copy of the stored version is what is stored.
  predicate IsCopy(name: string, copy: Stored, rems: map<string, Stored>) {
    IsCurrent(name, copy, rems) ==> copy == rems[name]
  }

  // The remediation in the API server, with its version.
  class RemediationStore {
    var stored: Option<Remediation>
    var version: nat

    // Refused when the version read is not the stored one.
    method UpdateSpec(rem: Remediation, read: nat) returns (ok: bool)
      modifies this
      ensures ok == (old(stored).Some? && read == old(version))
      ensures version == if ok then old(version) + 1 else old(version)
      ensures stored == if ok then Some(rem.(state := old(stored).value.state)) else old(stored)
    {
      ok := stored.Some? && read == version;
      if ok {
        stored, version := Some(rem.(state := stored.value.state)), version + 1;
      }
    }

    method UpdateState(rem: Remediation, read: nat) returns (ok: bool)
      modifies this
      ensures ok == (old(stored).Some? && read == old(version))
      ensures version == if ok then old(version) + 1 else old(version)
      ensures stored == if ok then Some(old(stored).value.(state := rem.state)) else old(stored)
    {
      ok := stored.Some? && read == version;
      if ok {
        stored, version := Some(stored.value.(state := rem.state)), version + 1;
      }
    }
  }

  // A remediation parsed from scan results.
  predicate IsNew(rem: Remediation) {
    !rem.apply && rem.current.Some? && rem.outdated.None? && !rem.labelled && rem.state == NoState
  }

  // Prepares a parsed remediation for replacing the stored one. What an object keeps from its
  // stored form, like annotations and version, is copied over the parsed one.
  method MergeWithFound(found: Remediation, parsed: Remediation) returns (write: bool, rem: Remediation, state: State)
    requires IsNew(parsed)
    ensures write <==> RescanRewrite(found, parsed.current.value).Some?
    ensures write ==> RescanRewrite(found, parsed.current.value).value == Rewrite(rem.(state := found.state), state)
  {
    rem, state := parsed, Pending;
    if found.state == Applied || found.state == Outdated {
      if !PayloadDiffers(found, rem.current.value) {
        return false, rem, state;
      }
      state := Outdated;
      if found.state == Applied {
        rem := rem.(outdated := found.current);
      } else {
        rem := rem.(outdated := found.outdated);
      }
      rem := rem.(apply := found.apply, labelled := true);
    }
    rem := rem.(dependencies := found.dependencies, dependenciesMet := found.dependenciesMet,
                unsetValue := found.unsetValue, valueRequired := found.valueRequired, optional := found.optional);
    write := true;
  }

  // Which of the writes go through, once they were repeated as often as they are.
  datatype Writes = Writes(create: bool, spec: bool, state: bool)

  // Applies a parsed remediation to the store: the spec first, the state in a second write on a
  // fresh copy.
  method HandleRemediation(store: RemediationStore, parsed: Remediation, checkPasses: bool, writes: Writes)
    returns (ok: bool)
    requires IsNew(parsed)
    modifies store
    ensures old(store.stored).Some? ==>
              var found := old(store.stored).value;
              var rewrite := RescanRewrite(found, parsed.current.value);
              && store.stored == Some(if !writes.spec then found
                                      else if !writes.state then Crashed(found, parsed.current.value)
                                      else Rescanned(found, parsed.current.value))
              && (ok <==> rewrite.None? || (writes.spec && writes.state))
    ensures old(store.stored).None? ==>
              && store.stored == (if checkPasses || !writes.create then None else Some(parsed))
              && (ok <==> checkPasses || writes.create)
  {
    ok := true;
    if store.stored.Some? {
      var found, read := store.stored.value, store.version;
      var write, rem, state := MergeWithFound(found, parsed);
      if write {
        if !writes.spec {
          return false;
        }
        ok := store.UpdateSpec(rem, read);
        if !writes.state {
          return false;
        }
        found, read := store.stored.value, store.version;
        ok := store.UpdateState(found.(state := state), read);
      }
    } else if !checkPasses {
      ok := writes.create;
      if ok {
        store.stored, store.version := Some(parsed), store.version + 1;
      }
    }
  }

  /******* The controller *******/

  // What went wrong, and how the error tells: as it is, wrapped into another error, or marked as not
  // worth a retry. The mark hides what the error was made of.
  datatype Cause = KindMissing | OtherCause
  datatype Failure = Plain(cause: Cause) | Wrapped(cause: Cause) | Permanent(cause: Cause)

  predicate IsRetriable(failure: Failure) {
    !failure.Permanent?
  }

  function Unwrap(failure: Failure): Option<Cause> {
    if failure.Wrapped? then Some(failure.cause) else None
  }

  predicate ErrorOnOptional(r: Remediation, failure: Failure) {
    r.optional && Unwrap(failure) == Some(KindMissing)
  }

  datatype DependencyCheck = DependenciesUnknown | DependenciesMet | DependenciesMissing(labelled: bool)

  datatype ValueCheck = ValuesUnknown | ValuesProcessed(unset: bool) | ValuesKnown

  // What one reconcile finds out: the checks are made only where the annotations ask for them,
  // and `failure` is what became of the work in the cluster.
  datatype Findings = Findings(dependencies: DependencyCheck, unset: ValueCheck, required: ValueCheck,
                               failure: Option<Failure>)

  datatype Operation = Put(payload: KubeObject) | Remove(payload: KubeObject)

  // A reconcile stops, or writes the remediation back, or ends with a status to be set.
  datatype Action = Stop | Write(rem: Remediation) | Finish(done: Option<Operation>, failure: Option<Failure>)

  function Act(r: Remediation, f: Findings): Action {
    if r.state == NoState then Write(r.(state := Pending))
    else if r.labelled && r.outdated.None? then Write(r.(labelled := false))
    else if r.current.None? then Stop
    else if HasUnmetDependencies(r) && f.dependencies.DependenciesUnknown? then Stop
    else if HasUnmetDependencies(r) && f.dependencies.DependenciesMet? then Write(r.(dependenciesMet := true))
    else if HasUnmetDependencies(r) && !f.dependencies.labelled then Write(r)
    else if r.unsetValue && f.unset.ValuesUnknown? then Stop
    else if r.unsetValue && f.unset.ValuesProcessed? then Write(r)
    else if r.valueRequired && f.required.ValuesUnknown? then Stop
    else if r.valueRequired && f.required.ValuesProcessed? then
      Write(r.(unsetValue := r.unsetValue || f.required.unset))
    else if HasUnmetDependencies(r) || r.unsetValue || r.valueRequired then Finish(None, None)
    else if f.failure.Some? && IsRetriable(f.failure.value) then Stop
    else if f.failure.Some? then Finish(None, f.failure)
    else Finish(Some(if r.apply then Put(Applicable(r).value) else Remove(Applicable(r).value)), None)
  }

  function Classify(r: Remediation, failure: Option<Failure>): State {
    if failure.Some? then (if ErrorOnOptional(r, failure.value) then NotApplied else Error)
    else if !r.apply then NotApplied
    else if r.outdated.Some? then Outdated
    else if HasUnmetDependencies(r) then MissingDependencies
    else if r.unsetValue then NeedsReview
    else Applied
  }

  /******* What a reconcile does, and what it reports *******/

  // It was given a state, is not labelled outdated for nothing, and there is something to apply.
  predicate InOrder(r: Remediation) {
    r.state != NoState && !(r.labelled && r.outdated.None?) && r.current.Some?
  }

  predicate DependenciesPass(r: Remediation, f: Findings) {
    !r.dependencies || r.dependenciesMet || (f.dependencies.DependenciesMissing? && f.dependencies.labelled)
  }

  predicate UnsetPasses(r: Remediation, f: Findings) {
    DependenciesPass(r, f) && (r.unsetValue ==> f.unset.ValuesKnown?)
  }

  predicate AllPass(r: Remediation, f: Findings) {
    InOrder(r) && UnsetPasses(r, f) && (r.valueRequired ==> f.required.ValuesKnown?)
  }

  // Nothing is missing that the object needs.
  predicate HasAllItNeeds(r: Remediation) {
    (r.dependencies ==> r.dependenciesMet) && !r.unsetValue && !r.valueRequired
  }

  // The object is put or removed exactly when nothing is out of order, missing or failing: the
  // outdated one if there is one.
  lemma {:induction false} DoneExactly(r: Remediation, f: Findings)
    ensures var action := Act(r, f);
            && (action.Finish? && action.done.Some? <==> InOrder(r) && HasAllItNeeds(r) && f.failure.None?)
            && (action.Finish? && action.done.Some? ==>
                  && action.failure.None?
                  && var o := if r.outdated.Some? then r.outdated.value else r.current.value;
                     action.done.value == if r.apply then Put(o) else Remove(o))
  {
  }

  // A status is reported exactly when every check passes and nothing failed that is worth a retry.
  lemma {:induction false} ReportsExactly(r: Remediation, f: Findings)
    ensures var action := Act(r, f);
            && (action.Finish? <==>
                  AllPass(r, f) && (HasAllItNeeds(r) && f.failure.Some? ==> f.failure.value.Permanent?))
            && (action.Finish? ==> action.failure == if HasAllItNeeds(r) then f.failure else None)
  {
  }

  // What is reported.
  lemma {:induction false} StateExactly(r: Remediation, f: Findings)
    requires Act(r, f).Finish?
    ensures var failure := Act(r, f).failure;
            var state := Classify(r, failure);
            && (state == Error <==> failure.Some?)
            && (state == NotApplied <==> failure.None? && !r.apply)
            && (state == Outdated <==> failure.None? && r.apply && r.outdated.Some?)
            && (state == MissingDependencies <==>
                  failure.None? && r.apply && r.outdated.None? && r.dependencies && !r.dependenciesMet)
            && (state == NeedsReview <==>
                  && failure.None? && r.apply && r.outdated.None?
                  && (r.dependencies ==> r.dependenciesMet) && r.unsetValue)
            && (state == Applied <==>
                  && failure.None? && r.apply && r.outdated.None?
                  && (r.dependencies ==> r.dependenciesMet) && !r.unsetValue)
  {
  }

  // The remediation itself is written back exactly when a check found something new.
  lemma {:induction false} WritesExactly(r: Remediation, f: Findings)
    ensures Act(r, f).Write? <==>
            || r.state == NoState || (r.labelled && r.outdated.None?)
            || (InOrder(r) && !DependenciesPass(r, f) && !f.dependencies.DependenciesUnknown?)
            || (InOrder(r) && DependenciesPass(r, f) && r.unsetValue && f.unset.ValuesProcessed?)
            || (InOrder(r) && UnsetPasses(r, f) && r.valueRequired && f.required.ValuesProcessed?)
  {
  }

  // Decision and contents are not touched by that.
  lemma {:induction false} WritingKeeps(r: Remediation, f: Findings)
    requires Act(r, f).Write?
    ensures var w := Act(r, f).rem;
            w == r.(state := w.state, labelled := w.labelled, dependenciesMet := w.dependenciesMet,
                    unsetValue := w.unsetValue)
  {
    var w := Act(r, f).rem;
    assert w == r || w == r.(state := Pending) || w == r.(labelled := false) || w == r.(dependenciesMet := true)
           || w == r.(unsetValue := true);
  }

  // A state or a label is put right.
  lemma {:induction false} WritesOrder(r: Remediation, f: Findings)
    requires Act(r, f).Write?
    ensures var w := Act(r, f).rem;
            && w.state == (if r.state == NoState then Pending else r.state)
            && (w.labelled <==> r.labelled && (r.state == NoState || r.outdated.Some?))
  {
  }

  // Met dependencies and missing values are noted.
  lemma {:induction false} WritesFindings(r: Remediation, f: Findings)
    requires Act(r, f).Write?
    ensures var w := Act(r, f).rem;
            && (w.dependenciesMet <==>
                  r.dependenciesMet || (InOrder(r) && !DependenciesPass(r, f) && f.dependencies.DependenciesMet?))
            && (w.unsetValue <==> r.unsetValue || (InOrder(r) && UnsetPasses(r, f) && f.required.ValuesProcessed? &&
                                                   f.required.unset && r.valueRequired))
  {
  }

  // A reconcile that reports a remediation as applied has put its current content in the cluster,
  // except when it carries the annotation for required values: then it has put nothing there.
  lemma {:induction false} AppliedMeansPut(r: Remediation, f: Findings)
    requires Act(r, f).Finish? && Classify(r, Act(r, f).failure) == Applied
    ensures r.apply && r.current.Some?
    ensures Act(r, f).done == if r.valueRequired then None else Some(Put(r.current.value))
  {
  }

  // With every value set, such a remediation is reported as applied and never is.
  lemma {:induction false} RequiredValuesNeverPut(r: Remediation, f: Findings)
    requires r.valueRequired
    ensures Act(r, f).Finish? ==> Act(r, f).done.None? && Act(r, f).failure.None?
    ensures Act(r, f).Finish? ==>
              (Classify(r, None) == Applied <==>
               r.apply && r.outdated.None? && !HasUnmetDependencies(r) && !r.unsetValue)
  {
  }

  // A remediation that is optional is not to be blamed for a missing kind, and always is: no failure
  // that ends up in the status can be unwrapped.
  lemma {:induction false} OptionalIsNeverForgiven(r: Remediation, f: Findings)
    ensures Act(r, f).Finish? ==> (Classify(r, Act(r, f).failure) == Error <==> Act(r, f).failure.Some?)
  {
  }

  // What the suite counts as applied, given that the status was set by the controller.
  predicate IsApplied(r: Remediation) {
    r.state == Applied || (r.apply && (r.state == Outdated || r.state == MissingDependencies))
  }

}
