/** A whole bundle at once: three kinds of objects are parsed by workers of their own, each kind into a
    store of its own, and then swept. What the bundle has if no error was returned. */
module ParseBundle {
  import opened BundleStore
  import opened Permutations
  import Kinds = BundleRuns
  import Routines = BundleParsing
  import Pool = WorkerPool

  // `kinds` are the workers of each kind with its objects, `routines` what waits for them.
  datatype System = System(routines: Routines.System, kinds: seq<Kinds.State>)

  // A step of the workers of a kind, or one of the routines; a sweep deletes some objects.
  datatype Step = InKind(kind: nat, step: Kinds.Step) | OfRoutines(routine: Routines.Step, deleted: set<Key>)

  // The jobs of the three kinds, and which of them fail to be parsed or swept: in a run with these
  // failures, exactly the kinds in `f.parse` have workers that return an error.
  datatype Bundle = Bundle(kinds: seq<string>, jobs: seq<Kinds.Job>, f: Routines.Failures)

  predicate WellFormed(b: Bundle) {
    |b.kinds| == |b.jobs| == Routines.NUMBER_OF_KINDS
  }

  // Profiles are parsed one after the other, the rest by several workers.
  const PROFILES := 0

  function StartOf(kind: nat, store: Kinds.Store): Kinds.State {
    if kind == PROFILES then Kinds.State(Pool.Start().(workers := [Pool.Ready]), store, map[]) else Kinds.Start(store)
  }

  function Start(stores: seq<Kinds.Store>): System {
    System(Routines.Start(), seq(|stores|, k requires 0 <= k < |stores| => StartOf(k, stores[k])))
  }

  function ObsoleteKeys(b: Bundle, k: nat, store: Kinds.Store): set<Key>
    requires WellFormed(b) && k < |b.jobs|
  {
    set key | key in store && key.kind == b.kinds[k] && Obsolete(store[key].stored, b.jobs[k].bundle, b.jobs[k].nonce)
  }

  // A routine goes on when its parse has returned. Its sweep deletes what is obsolete, or fails on
  // the way.
  predicate Enabled(s: System, step: Step, b: Bundle)
    requires WellFormed(b)
  {
    match step
    case InKind(k, st) =>
      !Routines.HasPanicked(s.routines) && k < |s.kinds| && k < |b.jobs| && Kinds.Enabled(s.kinds[k], st, b.jobs[k])
    case OfRoutines(st, deleted) =>
      && Routines.Enabled(s.routines, st)
      && (st.Parse? ==>
            && st.kind < |s.kinds| && s.kinds[st.kind].pool.main != Pool.Selecting
            && (st.kind in b.f.parse <==> s.kinds[st.kind].pool.main.ReturnedError?))
      && (st.Sweep? ==>
            && st.kind < |s.kinds| && st.kind < |b.jobs|
            && var obsolete := ObsoleteKeys(b, st.kind, s.kinds[st.kind].store);
               if st.kind in b.f.sweep then deleted <= obsolete else deleted == obsolete)
  }

  function Next(s: System, step: Step, b: Bundle): System
    requires WellFormed(b) && Enabled(s, step, b)
  {
    match step
    case InKind(k, st) => s.(kinds := s.kinds[k := Kinds.Next(s.kinds[k], st, b.jobs[k])])
    case OfRoutines(st, deleted) =>
      System(Routines.Next(s.routines, st, b.f),
             if st.Sweep? then s.kinds[st.kind := s.kinds[st.kind].(store := s.kinds[st.kind].store - deleted)]
             else s.kinds)
  }

  predicate Possible(s: System, steps: seq<Step>, b: Bundle)
    requires WellFormed(b)
    decreases |steps|
  {
    steps == [] || (Enabled(s, steps[0], b) && Possible(Next(s, steps[0], b), steps[1..], b))
  }

  function Run(s: System, steps: seq<Step>, b: Bundle): System
    requires WellFormed(b) && Possible(s, steps, b)
    decreases |steps|
  {
    if steps == [] then s else Run(Next(s, steps[0], b), steps[1..], b)
  }

  /******* What each kind has *******/

  // Before its sweep, a kind has what its workers have put. When it was parsed and swept without an
  // error, that is swept.
  ghost predicate KindOk(s: Kinds.State, r: Routines.Routine, swept: bool, b: Bundle, k: nat, objects: Objects)
    requires WellFormed(b) && k < |b.jobs|
  {
    var job := b.jobs[k];
    && Kinds.Sound(s, job) && Pool.Conserved(s.pool) && Kinds.NoneFailed(s, job)
    && (r != Routines.Parsing ==>
          s.pool.main != Pool.Selecting && (k in b.f.parse <==> s.pool.main.ReturnedError?))
    && (!swept ==> Kinds.Logged(s, job, objects))
    && (swept ==> r != Routines.Parsing)
    && (swept && k !in b.f.parse && k !in b.f.sweep ==> SweptOf(s, b, k, objects))
  }

  ghost predicate SweptOf(s: Kinds.State, b: Bundle, k: nat, objects: Objects)
    requires WellFormed(b) && k < |b.jobs|
  {
    var job := b.jobs[k];
    exists order: seq<Parsed> | multiset(order) == multiset(job.items) ::
      Kinds.Contents(s.store) == Parse(objects, b.kinds[k], job.bundle, job.nonce, order)
  }

  lemma {:induction false} WorkersKeepKindOk(s: Kinds.State, step: Kinds.Step, r: Routines.Routine, swept: bool,
                                             b: Bundle, k: nat, objects: Objects)
    requires WellFormed(b) && k < |b.jobs| && KindOk(s, r, swept, b, k, objects)
    requires Kinds.Enabled(s, step, b.jobs[k])
    ensures KindOk(Kinds.Next(s, step, b.jobs[k]), r, swept, b, k, objects)
  {
    var job := b.jobs[k];
    Kinds.StepOfPool(s, step, job);
    Kinds.StepKeepsNoneFailed(s, step, job);
    if !swept {
      Kinds.StepLogs(s, step, job, objects);
    }
  }

  lemma PutThenSwept(s: Kinds.State, b: Bundle, k: nat, objects: Objects)
    requires WellFormed(b) && k < |b.jobs| && Kinds.PutInSomeOrder(s.store, b.jobs[k], objects)
    ensures SweptOf(s.(store := s.store - ObsoleteKeys(b, k, s.store)), b, k, objects)
  {
    var job, after := b.jobs[k], s.(store := s.store - ObsoleteKeys(b, k, s.store));
    var order: seq<Parsed> :| multiset(order) == multiset(job.items) &&
                              Kinds.Contents(s.store) == PutAll(objects, job.bundle, job.nonce, order);
    assert Kinds.Contents(after.store) == Parse(objects, b.kinds[k], job.bundle, job.nonce, order);
  }

  // The sweep of a kind that was parsed.
  lemma {:induction false} SweepKeepsKindOk(s: Kinds.State, r: Routines.Routine, b: Bundle, k: nat, objects: Objects,
                                            deleted: set<Key>, r': Routines.Routine)
    requires WellFormed(b) && k < |b.jobs| && KindOk(s, r, false, b, k, objects)
    requires r != Routines.Parsing && r' != Routines.Parsing
    requires k !in b.f.sweep ==> deleted == ObsoleteKeys(b, k, s.store)
    ensures KindOk(s.(store := s.store - deleted), r', true, b, k, objects)
  {
    if k !in b.f.parse && k !in b.f.sweep {
      Kinds.ReturnedNilPutAll(s, b.jobs[k], objects);
      PutThenSwept(s, b, k, objects);
    }
  }

  ghost predicate Ok(s: System, b: Bundle, objects: seq<Objects>)
    requires WellFormed(b)
  {
    && |s.kinds| == |objects| == Routines.NUMBER_OF_KINDS
    && Routines.Ok(s.routines, b.f)
    && (!Routines.HasPanicked(s.routines) ==>
          forall k | 0 <= k < Routines.NUMBER_OF_KINDS ::
            KindOk(s.kinds[k], s.routines.routines[k], k in s.routines.swept, b, k, objects[k]))
  }

  lemma {:induction false} RoutineStepKeepsOk(s: System, step: Step, b: Bundle, objects: seq<Objects>, k: nat)
    requires WellFormed(b) && step.OfRoutines? && Enabled(s, step, b) && Ok(s, b, objects)
    requires k < Routines.NUMBER_OF_KINDS
    ensures var s' := Next(s, step, b);
            k < |s'.kinds| && k < |s'.routines.routines| &&
            (s'.routines.routines[k] != Routines.Panicked ==>
               KindOk(s'.kinds[k], s'.routines.routines[k], k in s'.routines.swept, b, k, objects[k]))
  {
    var st := step.routine;
    assert KindOk(s.kinds[k], s.routines.routines[k], k in s.routines.swept, b, k, objects[k]);
    assert Routines.RoutineOk(s.routines, k, b.f);
    if st.Sweep? && st.kind == k {
      SweepKeepsKindOk(s.kinds[k], s.routines.routines[k], b, k, objects[k], step.deleted,
                       Next(s, step, b).routines.routines[k]);
    }
  }

  lemma {:induction false} StepKeepsOk(s: System, step: Step, b: Bundle, objects: seq<Objects>)
    requires WellFormed(b) && Enabled(s, step, b) && Ok(s, b, objects)
    ensures Ok(Next(s, step, b), b, objects)
  {
    match step {
      case InKind(k, st) =>
        WorkersKeepKindOk(s.kinds[k], st, s.routines.routines[k], k in s.routines.swept, b, k, objects[k]);
      case OfRoutines(st, deleted) =>
        Routines.StepKeepsOk(s.routines, st, b.f);
        var s' := Next(s, step, b);
        if !Routines.HasPanicked(s'.routines) {
          forall k | 0 <= k < Routines.NUMBER_OF_KINDS
            ensures KindOk(s'.kinds[k], s'.routines.routines[k], k in s'.routines.swept, b, k, objects[k])
          {
            RoutineStepKeepsOk(s, step, b, objects, k);
            assert s'.routines.routines[k] in s'.routines.routines;
          }
        }
    }
  }

  lemma {:induction false} RunKeepsOk(s: System, steps: seq<Step>, b: Bundle, objects: seq<Objects>)
    requires WellFormed(b) && Possible(s, steps, b) && Ok(s, b, objects)
    ensures Ok(Run(s, steps, b), b, objects)
    decreases |steps|
  {
    if steps == [] {
    } else {
      StepKeepsOk(s, steps[0], b, objects);
      RunKeepsOk(Next(s, steps[0], b), steps[1..], b, objects);
    }
  }

  function AllContents(stores: seq<Kinds.Store>): seq<Objects> {
    seq(|stores|, k requires 0 <= k < |stores| => Kinds.Contents(stores[k]))
  }

  lemma StartIsOk(stores: seq<Kinds.Store>, b: Bundle)
    requires WellFormed(b) && |stores| == Routines.NUMBER_OF_KINDS
    ensures Ok(Start(stores), b, AllContents(stores))
  {
    forall k | 0 <= k < Routines.NUMBER_OF_KINDS
      ensures KindOk(Start(stores).kinds[k], Routines.Parsing, false, b, k, AllContents(stores)[k])
    {
      Kinds.StartLogs(stores[k], b.jobs[k]);
      forall item
        ensures Pool.ConservedItem(StartOf(PROFILES, stores[k]).pool, item)
      {
        Pool.NothingHeld([Pool.Ready], item);
      }
    }
  }

  /******* The bundle after a parse that returned nil *******/

  // In every interleaving of all workers and routines: if the parse of the bundle returns nil, each kind
  // was put in some order and swept.
  lemma {:induction false} NilParsesAllKinds(stores: seq<Kinds.Store>, steps: seq<Step>, b: Bundle, k: nat)
    requires WellFormed(b) && |stores| == Routines.NUMBER_OF_KINDS && Possible(Start(stores), steps, b)
    requires Run(Start(stores), steps, b).routines.main == Routines.ReturnedNil && k < Routines.NUMBER_OF_KINDS
    ensures k < |Run(Start(stores), steps, b).kinds|
    ensures SweptOf(Run(Start(stores), steps, b).kinds[k], b, k, Kinds.Contents(stores[k]))
  {
    StartIsOk(stores, b);
    RunKeepsOk(Start(stores), steps, b, AllContents(stores));
    var s := Run(Start(stores), steps, b);
    assert !Routines.HasPanicked(s.routines);
    assert s.routines.routines[k] in s.routines.routines && Routines.RoutineOk(s.routines, k, b.f);
    assert KindOk(s.kinds[k], s.routines.routines[k], k in s.routines.swept, b, k, AllContents(stores)[k]);
  }

  // The objects of a kind that the bundle has are those that were parsed.
  ghost predicate HasWhatWasParsed(s: System, b: Bundle, k: nat)
    requires WellFormed(b) && k < |s.kinds| && k < |b.jobs|
  {
    ExactlyParsed(Kinds.Contents(s.kinds[k].store), b.kinds[k], b.jobs[k].bundle, b.jobs[k].items)
  }

  // So of each kind the bundle has exactly what was parsed, exactly when no name of it collides; and with
  // payloads and all it is the specified store, unless one name is parsed with two payloads.
  lemma BundleIsWhatWasParsed(stores: seq<Kinds.Store>, steps: seq<Step>, b: Bundle, k: nat)
    requires WellFormed(b) && |stores| == Routines.NUMBER_OF_KINDS && Possible(Start(stores), steps, b)
    requires Run(Start(stores), steps, b).routines.main == Routines.ReturnedNil && k < Routines.NUMBER_OF_KINDS
    requires OfKind(b.jobs[k].items, b.kinds[k]) && FreshNonce(Kinds.Contents(stores[k]), b.jobs[k].nonce)
    ensures k < |Run(Start(stores), steps, b).kinds|
    ensures HasWhatWasParsed(Run(Start(stores), steps, b), b, k) <==>
            !Collides(Kinds.Contents(stores[k]), b.jobs[k].bundle, b.jobs[k].items)
    ensures Unambiguous(b.jobs[k].items) ==>
              Kinds.Contents(Run(Start(stores), steps, b).kinds[k].store) ==
              Parse(Kinds.Contents(stores[k]), b.kinds[k], b.jobs[k].bundle, b.jobs[k].nonce, b.jobs[k].items)
  {
    NilParsesAllKinds(stores, steps, b, k);
    var s, job, objects := Run(Start(stores), steps, b), b.jobs[k], Kinds.Contents(stores[k]);
    var order: seq<Parsed> :| multiset(order) == multiset(job.items) &&
                              Kinds.Contents(s.kinds[k].store) ==
                              Parse(objects, b.kinds[k], job.bundle, job.nonce, order);
    SameMembers(job.items, order);
    SeparateExactlyWithoutCollision(objects, b.kinds[k], job.bundle, job.nonce, order);
    assert forall key :: Named(order, job.bundle, key) <==> Named(job.items, job.bundle, key);
    assert Collides(objects, job.bundle, order) <==> Collides(objects, job.bundle, job.items);
    if Unambiguous(job.items) {
      UnambiguousOrder(objects, job.bundle, job.nonce, job.items, order);
    }
  }

  /******* When it can return nil *******/

  // A kind without items that fail, whose parse and sweep are not said to fail.
  predicate Succeeds(b: Bundle, k: nat)
    requires WellFormed(b) && k < |b.jobs|
  {
    k !in b.f.parse && k !in b.f.sweep && !Pool.SomeFail(|b.jobs[k].items|, b.jobs[k].fails)
  }

  lemma {:induction false} Concat(s: System, steps: seq<Step>, more: seq<Step>, b: Bundle)
    requires WellFormed(b) && Possible(s, steps, b) && Possible(Run(s, steps, b), more, b)
    ensures Possible(s, steps + more, b) && Run(s, steps + more, b) == Run(Run(s, steps, b), more, b)
    decreases |steps|
  {
    var all := steps + more;
    if steps == [] {
      assert all == more;
    } else {
      assert all[0] == steps[0] && all[1..] == steps[1..] + more;
      Concat(Next(s, steps[0], b), steps[1..], more, b);
    }
  }

  lemma Extend(s: System, steps: seq<Step>, step: Step, b: Bundle)
    requires WellFormed(b) && Possible(s, steps, b) && Enabled(Run(s, steps, b), step, b)
    ensures Possible(s, steps + [step], b) && Run(s, steps + [step], b) == Next(Run(s, steps, b), step, b)
  {
    var more := [step];
    assert more[1..] == [];
    Concat(s, steps, more, b);
  }

  // The workers of a kind on their own.
  lemma {:induction false} OneKindRuns(s: System, k: nat, own: seq<Kinds.Step>, b: Bundle) returns (steps: seq<Step>)
    requires WellFormed(b) && k < |s.kinds| == |b.jobs| && !Routines.HasPanicked(s.routines)
    requires Kinds.Possible(s.kinds[k], own, b.jobs[k])
    ensures Possible(s, steps, b)
    ensures Run(s, steps, b) == s.(kinds := s.kinds[k := Kinds.Run(s.kinds[k], own, b.jobs[k])])
    decreases |own|
  {
    if own == [] {
      steps := [];
    } else {
      var first := InKind(k, own[0]);
      var next := Next(s, first, b);
      var rest := OneKindRuns(next, k, own[1..], b);
      steps := [first] + rest;
      assert steps[1..] == rest;
    }
  }

  // The kinds before `count` are through, and the others did not start.
  predicate Through(s: System, count: nat) {
    && |s.kinds| == |s.routines.routines| == Routines.NUMBER_OF_KINDS
    && !s.routines.waited && s.routines.main == Routines.Selecting
    && forall k | 0 <= k < Routines.NUMBER_OF_KINDS ::
         if k < count then s.routines.routines[k] == Routines.Finished
         else s.routines.routines[k] == Routines.Parsing && Kinds.Unstarted(s.kinds[k])
  }

  lemma OneKindThrough(s: System, k: nat, b: Bundle) returns (steps: seq<Step>)
    requires WellFormed(b) && Through(s, k) && k < Routines.NUMBER_OF_KINDS && Succeeds(b, k)
    ensures Possible(s, steps, b) && Through(Run(s, steps, b), k + 1)
  {
    var own := Kinds.CanSucceed(s.kinds[k], b.jobs[k]);
    steps := OneKindRuns(s, k, own, b);
    Extend(s, steps, OfRoutines(Routines.Parse(k), {}), b);
    steps := steps + [OfRoutines(Routines.Parse(k), {})];
    var parsed := Run(s, steps, b);
    assert forall r | r in parsed.routines.routines :: r in s.routines.routines || r == Routines.Sweeping;
    var obsolete := ObsoleteKeys(b, k, parsed.kinds[k].store);
    Extend(s, steps, OfRoutines(Routines.Sweep(k), obsolete), b);
    steps := steps + [OfRoutines(Routines.Sweep(k), obsolete)];
  }

  lemma {:induction false} AllThrough(s: System, steps: seq<Step>, count: nat, b: Bundle) returns (steps': seq<Step>)
    requires WellFormed(b) && Possible(s, steps, b) && Through(Run(s, steps, b), count)
    requires count <= Routines.NUMBER_OF_KINDS && forall k | 0 <= k < Routines.NUMBER_OF_KINDS :: Succeeds(b, k)
    ensures Possible(s, steps', b) && Through(Run(s, steps', b), Routines.NUMBER_OF_KINDS)
    decreases Routines.NUMBER_OF_KINDS - count
  {
    if count == Routines.NUMBER_OF_KINDS {
      steps' := steps;
    } else {
      var more := OneKindThrough(Run(s, steps, b), count, b);
      Concat(s, steps, more, b);
      steps' := AllThrough(s, steps + more, count + 1, b);
    }
  }

  lemma RunToNil(stores: seq<Kinds.Store>, b: Bundle) returns (steps: seq<Step>)
    requires WellFormed(b) && |stores| == Routines.NUMBER_OF_KINDS
    requires forall k | 0 <= k < Routines.NUMBER_OF_KINDS :: Succeeds(b, k)
    ensures Possible(Start(stores), steps, b) && Run(Start(stores), steps, b).routines.main == Routines.ReturnedNil
  {
    var start := Start(stores);
    steps := AllThrough(start, [], 0, b);
    Extend(start, steps, OfRoutines(Routines.WaitIsOver, {}), b);
    steps := steps + [OfRoutines(Routines.WaitIsOver, {})];
    Extend(start, steps, OfRoutines(Routines.SelectDone, {}), b);
    steps := steps + [OfRoutines(Routines.SelectDone, {})];
  }

  lemma {:induction false} NilSucceeds(stores: seq<Kinds.Store>, steps: seq<Step>, b: Bundle, k: nat)
    requires WellFormed(b) && |stores| == Routines.NUMBER_OF_KINDS && Possible(Start(stores), steps, b)
    requires Run(Start(stores), steps, b).routines.main == Routines.ReturnedNil && k < Routines.NUMBER_OF_KINDS
    ensures Succeeds(b, k)
  {
    StartIsOk(stores, b);
    RunKeepsOk(Start(stores), steps, b, AllContents(stores));
    var s := Run(Start(stores), steps, b);
    assert !Routines.HasPanicked(s.routines);
    assert s.routines.routines[k] in s.routines.routines && Routines.RoutineOk(s.routines, k, b.f);
    assert KindOk(s.kinds[k], s.routines.routines[k], k in s.routines.swept, b, k, AllContents(stores)[k]);
    Kinds.SucceedsIfNoneFailed(s.kinds[k], b.jobs[k]);
  }

  ghost predicate CanReturnNil(stores: seq<Kinds.Store>, b: Bundle)
    requires WellFormed(b)
  {
    exists steps ::
      Possible(Start(stores), steps, b) && Run(Start(stores), steps, b).routines.main == Routines.ReturnedNil
  }

  // Some interleaving returns nil exactly if no item fails, and no sweep.
  lemma CanReturnNilExactly(stores: seq<Kinds.Store>, b: Bundle)
    requires WellFormed(b) && |stores| == Routines.NUMBER_OF_KINDS
    ensures CanReturnNil(stores, b) <==> forall k | 0 <= k < Routines.NUMBER_OF_KINDS :: Succeeds(b, k)
  {
    if CanReturnNil(stores, b) {
      var steps :| Possible(Start(stores), steps, b) &&
                   Run(Start(stores), steps, b).routines.main == Routines.ReturnedNil;
      forall k | 0 <= k < Routines.NUMBER_OF_KINDS
        ensures Succeeds(b, k)
      {
        NilSucceeds(stores, steps, b, k);
      }
    }
    if forall k | 0 <= k < Routines.NUMBER_OF_KINDS :: Succeeds(b, k) {
      var steps := RunToNil(stores, b);
    }
  }
}
