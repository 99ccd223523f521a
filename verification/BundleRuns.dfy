/** The workers of a pool and the store they write to: a worker looks an object up and creates or
    updates it in two calls, between which the other workers go on. What a parse that succeeds has
    stored, and when one can fail. */
module BundleRuns {
  import opened Options
  import opened BundleStore
  import Pool = WorkerPool

  datatype Versioned = Versioned(stored: Stored, version: nat)

  type Store = map<Key, Versioned>

  // `looks` are the workers between their two calls, with the version they found, if any.
  datatype State = State(pool: Pool.Pool, store: Store, looks: map<nat, Option<nat>>)

  // What is parsed, for which bundle and with which nonce, and the positions of the items that fail
  // for reasons of their own.
  datatype Job = Job(bundle: string, nonce: string, items: seq<Parsed>, fails: set<nat>)

  datatype Step = Looks(worker: nat) | Writes(worker: nat) | OfPool(step: Pool.Step)

  function VersionOf(store: Store, key: Key): Option<nat> {
    if key in store then Some(store[key].version) else None
  }

  function Contents(store: Store): Objects {
    map key | key in store :: store[key].stored
  }

  predicate Holds(s: State, job: Job, w: nat) {
    w < |s.pool.workers| && s.pool.workers[w].Busy? && s.pool.workers[w].item < |job.items|
  }

  function KeyHeld(s: State, job: Job, w: nat): Key
    requires Holds(s, job, w)
  {
    KeyOf(job.bundle, job.items[s.pool.workers[w].item])
  }

  predicate Enabled(s: State, step: Step, job: Job) {
    match step
    case Looks(w) => Holds(s, job, w) && w !in s.looks
    case Writes(w) => Holds(s, job, w) && w in s.looks
    case OfPool(st) => !st.Work? && Pool.Enabled(s.pool, st, |job.items|)
  }

  // A create is refused if the object is there by now, an update if it was written since.
  predicate Refused(s: State, job: Job, w: nat)
    requires Holds(s, job, w) && w in s.looks
  {
    s.looks[w] != VersionOf(s.store, KeyHeld(s, job, w))
  }

  function Next(s: State, step: Step, job: Job): State
    requires Enabled(s, step, job)
  {
    match step
    case Looks(w) => s.(looks := s.looks[w := VersionOf(s.store, KeyHeld(s, job, w))])
    case Writes(w) =>
      var item := s.pool.workers[w].item;
      if item in job.fails || Refused(s, job, w) then
        State(Pool.Next(s.pool, Pool.Work(w), |job.items|, {item}), s.store, s.looks - {w})
      else
        State(Pool.Next(s.pool, Pool.Work(w), |job.items|, {}), Written(s.store, job, job.items[item]), s.looks - {w})
    case OfPool(st) => s.(pool := Pool.Next(s.pool, st, |job.items|, {}))
  }

  function Written(store: Store, job: Job, p: Parsed): Store {
    var key := KeyOf(job.bundle, p);
    if key in store then
      store[key := Versioned(store[key].stored.(nonce := job.nonce, payload := p.payload), store[key].version + 1)]
    else store[key := Versioned(Stored(job.bundle, job.nonce, p.payload), 0)]
  }

  predicate Possible(s: State, steps: seq<Step>, job: Job)
    decreases |steps|
  {
    steps == [] || (Enabled(s, steps[0], job) && Possible(Next(s, steps[0], job), steps[1..], job))
  }

  function Run(s: State, steps: seq<Step>, job: Job): State
    requires Possible(s, steps, job)
    decreases |steps|
  {
    if steps == [] then s else Run(Next(s, steps[0], job), steps[1..], job)
  }

  function Start(store: Store): State {
    State(Pool.Start(), store, map[])
  }

  /******* The store is that of the log *******/

  function Pick(items: seq<Parsed>, log: seq<nat>): (picked: seq<Parsed>)
    requires forall i | i in log :: i < |items|
    ensures |picked| == |log|
  {
    seq(|log|, k requires 0 <= k < |log| => assert log[k] in log; items[log[k]])
  }

  ghost predicate Logged(s: State, job: Job, objects: Objects) {
    && (forall i | i in s.pool.log :: i < |job.items|)
    && Contents(s.store) == PutAll(objects, job.bundle, job.nonce, Pick(job.items, s.pool.log))
  }

  lemma WrittenPuts(store: Store, job: Job, p: Parsed)
    ensures Contents(Written(store, job, p)) == Put(Contents(store), job.bundle, job.nonce, p)
  {
  }

  lemma {:induction false} StepLogs(s: State, step: Step, job: Job, objects: Objects)
    requires Enabled(s, step, job) && Logged(s, job, objects)
    ensures Logged(Next(s, step, job), job, objects)
  {
    if step.Writes? {
      var item := s.pool.workers[step.worker].item;
      if !(item in job.fails || Refused(s, job, step.worker)) {
        var log := s.pool.log;
        WrittenPuts(s.store, job, job.items[item]);
        assert Pick(job.items, log + [item]) == Pick(job.items, log) + [job.items[item]];
      }
    }
  }

  predicate Sound(s: State, job: Job) {
    Pool.Wired(s.pool, |job.items|)
  }

  // One step of the pool or none.
  lemma StepOfPool(s: State, step: Step, job: Job)
    requires Enabled(s, step, job) && Sound(s, job) && Pool.Conserved(s.pool)
    ensures Sound(Next(s, step, job), job) && Pool.Conserved(Next(s, step, job).pool)
  {
    var n := |job.items|;
    match step {
      case Looks(_) =>
      case Writes(w) =>
        var item := s.pool.workers[w].item;
        Pool.StepConserves(s.pool, Pool.Work(w), n, {item});
        Pool.StepConserves(s.pool, Pool.Work(w), n, {});
        Pool.StepKeepsWired(s.pool, Pool.Work(w), n, {item});
        Pool.StepKeepsWired(s.pool, Pool.Work(w), n, {});
      case OfPool(st) =>
        Pool.StepConserves(s.pool, st, n, {});
        Pool.StepKeepsWired(s.pool, st, n, {});
    }
  }

  lemma {:induction false} RunLogs(s: State, steps: seq<Step>, job: Job, objects: Objects)
    requires Possible(s, steps, job) && Sound(s, job) && Pool.Conserved(s.pool) && Logged(s, job, objects)
    ensures var s' := Run(s, steps, job); Sound(s', job) && Pool.Conserved(s'.pool) && Logged(s', job, objects)
    decreases |steps|
  {
    if steps == [] {
    } else {
      StepOfPool(s, steps[0], job);
      StepLogs(s, steps[0], job, objects);
      RunLogs(Next(s, steps[0], job), steps[1..], job, objects);
    }
  }

  lemma StartLogs(store: Store, job: Job)
    ensures Sound(Start(store), job) && Pool.Conserved(Start(store).pool) && Logged(Start(store), job, Contents(store))
  {
    Pool.StartIsConsistent(|job.items|, {});
  }

  function Without(log: seq<nat>, k: nat): seq<nat>
    requires k < |log|
  {
    log[..k] + log[k + 1..]
  }

  lemma WithoutOne(log: seq<nat>, k: nat)
    requires k < |log|
    ensures forall i: nat :: multiset(log)[i] == multiset(Without(log, k))[i] + if i == log[k] then 1 else 0
  {
    var lone: seq<nat> := [log[k]];
    assert log == log[..k] + lone + log[k + 1..];
    assert multiset(log) == multiset(Without(log, k)) + multiset(lone);
  }

  lemma PickWithout(items: seq<Parsed>, log: seq<nat>, k: nat)
    requires k < |log| && |items| > 0 && log[k] == |items| - 1
    requires (forall i | i in log :: i < |items|) && forall i | i in Without(log, k) :: i < |items| - 1
    ensures multiset(Pick(items, log)) ==
            multiset(Pick(items[..|items| - 1], Without(log, k))) + multiset{items[|items| - 1]}
  {
    var last := items[|items| - 1];
    assert log == log[..k] + [log[k]] + log[k + 1..];
    var head, tail := log[..k], log[k + 1..];
    assert forall i | i in head :: i in log;
    assert forall i | i in tail :: i in log;
    var front, back := Pick(items, head), Pick(items, tail);
    assert Pick(items, log) == front + [last] + back;
    assert Pick(items[..|items| - 1], Without(log, k)) == front + back by {
      forall j | 0 <= j < |front + back|
        ensures Pick(items[..|items| - 1], Without(log, k))[j] == (front + back)[j]
      {
        assert Without(log, k)[j] in Without(log, k);
      }
    }
  }

  // A log that has every position once picks every item once.
  lemma {:induction false} PickIsAnOrder(items: seq<Parsed>, log: seq<nat>)
    requires forall i: nat :: multiset(log)[i] == if i < |items| then 1 else 0
    ensures forall i | i in log :: i < |items|
    ensures multiset(Pick(items, log)) == multiset(items)
    decreases |items|
  {
    assert forall i | i in log :: multiset(log)[i] >= 1;
    if items == [] {
      assert multiset(log) == multiset{} && |multiset(log)| == |log|;
    } else {
      var last: nat := |items| - 1;
      assert last in multiset(log);
      var k :| 0 <= k < |log| && log[k] == last;
      WithoutOne(log, k);
      var rest := Without(log, k);
      assert forall i | i in rest :: multiset(rest)[i] >= 1;
      PickIsAnOrder(items[..last], rest);
      PickWithout(items, log, k);
      assert items == items[..last] + [items[last]];
    }
  }

  // The store is what putting all the items in some order makes of the objects.
  ghost predicate PutInSomeOrder(store: Store, job: Job, objects: Objects) {
    exists order: seq<Parsed> | multiset(order) == multiset(job.items) ::
      Contents(store) == PutAll(objects, job.bundle, job.nonce, order)
  }

  lemma ReturnedNilPutAll(s: State, job: Job, objects: Objects)
    requires Sound(s, job) && Pool.Conserved(s.pool) && s.pool.main == Pool.ReturnedNil
    requires Logged(s, job, objects)
    ensures PutInSomeOrder(s.store, job, objects)
  {
    forall i: nat
      ensures multiset(s.pool.log)[i] == if i < |job.items| then 1 else 0
    {
      assert Pool.ConservedItem(s.pool, i);
      Pool.NothingHeld(s.pool.workers, i);
    }
    PickIsAnOrder(job.items, s.pool.log);
    var order := Pick(job.items, s.pool.log);
    assert multiset(order) == multiset(job.items);
  }

  // In every interleaving of lookups and writes: if the parse succeeds, the store is what some order of
  // all the items, put one after the other, would have made of it.
  lemma SuccessStoresAll(store: Store, steps: seq<Step>, job: Job)
    requires Possible(Start(store), steps, job) && Run(Start(store), steps, job).pool.main == Pool.ReturnedNil
    ensures PutInSomeOrder(Run(Start(store), steps, job).store, job, Contents(store))
  {
    StartLogs(store, job);
    RunLogs(Start(store), steps, job, Contents(store));
    ReturnedNilPutAll(Run(Start(store), steps, job), job, Contents(store));
  }

  // And what was parsed under one name being the same, it is the only store that can come out: of each
  // kind, swept afterwards, that of the specification.
  lemma SuccessStoresParse(store: Store, steps: seq<Step>, job: Job, kind: string)
    requires Possible(Start(store), steps, job) && Run(Start(store), steps, job).pool.main == Pool.ReturnedNil
    requires Unambiguous(job.items)
    ensures Sweep(Contents(Run(Start(store), steps, job).store), kind, job.bundle, job.nonce) ==
            Parse(Contents(store), kind, job.bundle, job.nonce, job.items)
  {
    SuccessStoresAll(store, steps, job);
    var s := Run(Start(store), steps, job);
    var order: seq<Parsed> :| multiset(order) == multiset(job.items) &&
                              Contents(s.store) == PutAll(Contents(store), job.bundle, job.nonce, order);
    UnambiguousOrder(Contents(store), job.bundle, job.nonce, job.items, order);
  }

  /******* Two workers on one name *******/

  ghost predicate DistinctNames(job: Job) {
    forall i, j | 0 <= i < j < |job.items| :: KeyOf(job.bundle, job.items[i]) != KeyOf(job.bundle, job.items[j])
  }

  // What a worker found is still there when it writes.
  predicate LooksStand(s: State, job: Job) {
    forall w | w in s.looks :: Holds(s, job, w) && !Refused(s, job, w)
  }

  lemma {:induction false} HeldByTwo(workers: seq<Pool.Worker>, v: nat, w: nat, item: nat)
    requires v < w < |workers| && Pool.HeldBy(workers[v], item) == Pool.HeldBy(workers[w], item) == 1
    ensures Pool.Held(workers, item) >= 2
  {
    if v == 0 {
      Pool.HeldAfter(workers[1..], w - 1, workers[w], item);
    } else {
      HeldByTwo(workers[1..], v - 1, w - 1, item);
    }
  }

  lemma HeldOnce(s: State, job: Job, v: nat, w: nat)
    requires Pool.Conserved(s.pool) && Holds(s, job, v) && Holds(s, job, w) && v != w
    ensures s.pool.workers[v].item != s.pool.workers[w].item
  {
    var item := s.pool.workers[v].item;
    assert Pool.ConservedItem(s.pool, item);
    if s.pool.workers[w].item == item {
      HeldByTwo(s.pool.workers, if v < w then v else w, if v < w then w else v, item);
    }
  }

  lemma {:induction false} StepKeepsLooks(s: State, step: Step, job: Job)
    requires Enabled(s, step, job) && Pool.Conserved(s.pool) && DistinctNames(job) && LooksStand(s, job)
    ensures LooksStand(Next(s, step, job), job)
  {
    var s' := Next(s, step, job);
    forall w | w in s'.looks
      ensures Holds(s', job, w) && !Refused(s', job, w)
    {
      if w in s.looks {
        assert Holds(s, job, w) && !Refused(s, job, w);
        if step.Writes? {
          HeldOnce(s, job, step.worker, w);
          assert KeyHeld(s, job, step.worker) != KeyHeld(s, job, w);
        }
      }
    }
  }

  lemma {:induction false} StepBlames(s: State, step: Step, job: Job)
    requires Enabled(s, step, job) && LooksStand(s, job) && Pool.Blamed(s.pool, job.fails)
    ensures Pool.Blamed(Next(s, step, job).pool, job.fails)
  {
  }

  lemma {:induction false} RunBlames(s: State, steps: seq<Step>, job: Job)
    requires Possible(s, steps, job) && Sound(s, job) && Pool.Conserved(s.pool) && DistinctNames(job)
    requires LooksStand(s, job) && Pool.Blamed(s.pool, job.fails)
    ensures Pool.Blamed(Run(s, steps, job).pool, job.fails)
    decreases |steps|
  {
    if steps == [] {
    } else {
      StepOfPool(s, steps[0], job);
      StepKeepsLooks(s, steps[0], job);
      StepBlames(s, steps[0], job);
      RunBlames(Next(s, steps[0], job), steps[1..], job);
    }
  }

  function Measure(s: State, job: Job): int {
    2 * Pool.Measure(s.pool, |job.items|) - |s.looks|
  }

  lemma {:induction false} NoDeadlock(s: State, job: Job)
    requires Sound(s, job) && Pool.Conserved(s.pool) && s.pool.main == Pool.Selecting
    ensures exists step :: Enabled(s, step, job)
  {
    Pool.NoDeadlock(s.pool, |job.items|);
    var st :| Pool.Enabled(s.pool, st, |job.items|);
    if st.Work? {
      var w := st.worker;
      assert Pool.ConservedItem(s.pool, s.pool.workers[w].item);
      Pool.HeldAfter(s.pool.workers, w, s.pool.workers[w], s.pool.workers[w].item);
      assert Enabled(s, if w in s.looks then Writes(w) else Looks(w), job);
    } else {
      assert Enabled(s, OfPool(st), job);
    }
  }

  lemma {:induction false} StepDecreasesMeasure(s: State, step: Step, job: Job)
    requires Enabled(s, step, job) && Sound(s, job)
    ensures Measure(Next(s, step, job), job) < Measure(s, job)
  {
    var n := |job.items|;
    match step {
      case Looks(w) =>
      case Writes(w) =>
        Pool.StepDecreasesMeasure(s.pool, Pool.Work(w), n, {s.pool.workers[w].item});
        Pool.StepDecreasesMeasure(s.pool, Pool.Work(w), n, {});
        assert s.looks.Keys == (s.looks - {w}).Keys + {w};
      case OfPool(st) =>
        Pool.StepDecreasesMeasure(s.pool, st, n, {});
    }
  }

  // No item that fails is got through.
  predicate NoneFailed(s: State, job: Job) {
    forall i | i in s.pool.log :: i !in job.fails
  }

  lemma {:induction false} StepKeepsNoneFailed(s: State, step: Step, job: Job)
    requires Enabled(s, step, job) && NoneFailed(s, job)
    ensures NoneFailed(Next(s, step, job), job)
  {
  }

  lemma SucceedsIfNoneFailed(s: State, job: Job)
    requires Sound(s, job) && Pool.Conserved(s.pool) && s.pool.main == Pool.ReturnedNil && NoneFailed(s, job)
    ensures !Pool.SomeFail(|job.items|, job.fails)
  {
    forall i | 0 <= i < |job.items|
      ensures i !in job.fails
    {
      assert Pool.ConservedItem(s.pool, i);
      Pool.NothingHeld(s.pool.workers, i);
      assert i in multiset(s.pool.log) && i in s.pool.log;
    }
  }

  // Without two items of one name, no write is refused because of another worker: a parse that cannot
  // go on has returned, and nil exactly if no item fails.
  lemma {:induction false} DistinctNamesDoNotRace(store: Store, steps: seq<Step>, job: Job)
    requires Possible(Start(store), steps, job) && DistinctNames(job)
    ensures var p := Run(Start(store), steps, job).pool;
            && (p.main == Pool.ReturnedNil ==> !Pool.SomeFail(|job.items|, job.fails))
            && (p.main.ReturnedError? ==> p.main.item in job.fails && p.main.item < |job.items|)
            && ((forall step :: !Enabled(Run(Start(store), steps, job), step, job)) ==> p.main != Pool.Selecting)
  {
    StartLogs(store, job);
    RunLogs(Start(store), steps, job, Contents(store));
    RunBlames(Start(store), steps, job);
    var s := Run(Start(store), steps, job);
    if s.pool.main == Pool.Selecting {
      NoDeadlock(s, job);
    }
    if s.pool.main == Pool.ReturnedNil {
      SucceedsIfNoneFailed(s, job);
    }
    if s.pool.main.ReturnedError? {
      assert Pool.ConservedItem(s.pool, s.pool.main.item);
    }
  }

  lemma {:induction false} Extend(s: State, steps: seq<Step>, step: Step, job: Job)
    requires Possible(s, steps, job) && Enabled(Run(s, steps, job), step, job)
    ensures Possible(s, steps + [step], job) && Run(s, steps + [step], job) == Next(Run(s, steps, job), step, job)
    decreases |steps|
  {
    if steps == [] {
      assert [step][1..] == [];
    } else {
      assert (steps + [step])[1..] == steps[1..] + [step];
      Extend(Next(s, steps[0], job), steps[1..], step, job);
    }
  }

  // How often an object was written, as far as its version tells. It only grows.
  function Rank(version: Option<nat>): nat {
    match version
    case None => 0
    case Some(v) => v + 1
  }

  lemma WrittenRanks(store: Store, job: Job, p: Parsed, key: Key)
    ensures Rank(VersionOf(Written(store, job, p), key)) ==
            Rank(VersionOf(store, key)) + if key == KeyOf(job.bundle, p) then 1 else 0
  {
  }

  ghost predicate NotOlder(store: Store, store': Store) {
    forall key :: Rank(VersionOf(store, key)) <= Rank(VersionOf(store', key))
  }

  // A worker with nothing to do, and an item to hand out.
  predicate Idle(s: State, w: nat) {
    w < |s.pool.workers| && s.pool.workers[w] == Pool.Ready && w !in s.looks
  }

  // The worker gets through the next item, without anything happening in between.
  lemma HandleOne(start: State, steps: seq<Step>, job: Job, w: nat) returns (steps': seq<Step>)
    requires Possible(start, steps, job) && Idle(Run(start, steps, job), w)
    requires Run(start, steps, job).pool.next < |job.items| && Run(start, steps, job).pool.next !in job.fails
    ensures Possible(start, steps', job)
    ensures var s := Run(start, steps, job);
            Run(start, steps', job) ==
            State(s.pool.(next := s.pool.next + 1, log := s.pool.log + [s.pool.next]),
                  Written(s.store, job, job.items[s.pool.next]), s.looks)
  {
    var s := Run(start, steps, job);
    Extend(start, steps, OfPool(Pool.Hand(w)), job);
    steps' := steps + [OfPool(Pool.Hand(w))];
    Extend(start, steps', Looks(w), job);
    steps' := steps' + [Looks(w)];
    assert !Refused(Run(start, steps', job), job, w);
    Extend(start, steps', Writes(w), job);
    steps' := steps' + [Writes(w)];
    var s' := Run(start, steps', job);
    assert s'.looks == s.looks && s'.pool.workers == s.pool.workers;
  }

  // It gets through all items up to a position.
  lemma {:induction false} HandleUpTo(start: State, steps: seq<Step>, job: Job, w: nat, upTo: nat)
    returns (steps': seq<Step>)
    requires Possible(start, steps, job) && Idle(Run(start, steps, job), w)
    requires Run(start, steps, job).pool.next <= upTo <= |job.items| && !Pool.SomeFail(upTo, job.fails)
    ensures Possible(start, steps', job)
    ensures var s, s' := Run(start, steps, job), Run(start, steps', job);
            && s'.pool == s.pool.(next := upTo, log := s'.pool.log)
            && s'.looks == s.looks && NotOlder(s.store, s'.store)
    decreases upTo - Run(start, steps, job).pool.next
  {
    var s := Run(start, steps, job);
    if s.pool.next == upTo {
      steps' := steps;
    } else {
      var first := HandleOne(start, steps, job, w);
      steps' := HandleUpTo(start, first, job, w, upTo);
      forall key
        ensures Rank(VersionOf(s.store, key)) <= Rank(VersionOf(Run(start, steps', job).store, key))
      {
        WrittenRanks(s.store, job, job.items[s.pool.next], key);
      }
    }
  }

  // Two items of one name: a worker looks up the first one, and before it goes on another worker gets
  // through all items up to the second.
  lemma {:induction false} OvertakenFails(store: Store, job: Job, i: nat, j: nat) returns (steps: seq<Step>)
    requires i < j < |job.items| && !Pool.SomeFail(|job.items|, job.fails)
    requires KeyOf(job.bundle, job.items[i]) == KeyOf(job.bundle, job.items[j])
    ensures Possible(Start(store), steps, job) && Run(Start(store), steps, job).pool.main == Pool.ReturnedError(i)
  {
    var start, key := Start(store), KeyOf(job.bundle, job.items[i]);
    steps := HandleUpTo(start, [], job, 2, i);
    Extend(start, steps, OfPool(Pool.Hand(0)), job);
    steps := steps + [OfPool(Pool.Hand(0))];
    Extend(start, steps, Looks(0), job);
    steps := steps + [Looks(0)];
    var looked := Run(start, steps, job);
    steps := HandleUpTo(start, steps, job, 2, j);
    var before := Run(start, steps, job);
    steps := HandleOne(start, steps, job, 2);
    WrittenRanks(before.store, job, job.items[j], key);
    var s := Run(start, steps, job);
    assert Rank(VersionOf(looked.store, key)) < Rank(VersionOf(s.store, key));
    assert Holds(s, job, 0) && s.looks[0] == VersionOf(looked.store, key) && Refused(s, job, 0);
    Extend(start, steps, Writes(0), job);
    steps := steps + [Writes(0)];
    Extend(start, steps, OfPool(Pool.SelectError(0)), job);
    steps := steps + [OfPool(Pool.SelectError(0))];
  }

  // An item that fails by itself is reached, if none before it fails.
  lemma {:induction false} FirstFailingFails(store: Store, job: Job, i: nat) returns (steps: seq<Step>)
    requires i < |job.items| && i in job.fails && !Pool.SomeFail(i, job.fails)
    ensures Possible(Start(store), steps, job) && Run(Start(store), steps, job).pool.main == Pool.ReturnedError(i)
  {
    var start := Start(store);
    steps := HandleUpTo(start, [], job, 2, i);
    Extend(start, steps, OfPool(Pool.Hand(0)), job);
    steps := steps + [OfPool(Pool.Hand(0))];
    Extend(start, steps, Looks(0), job);
    steps := steps + [Looks(0)];
    Extend(start, steps, Writes(0), job);
    steps := steps + [Writes(0)];
    Extend(start, steps, OfPool(Pool.SelectError(0)), job);
    steps := steps + [OfPool(Pool.SelectError(0))];
  }

  lemma {:induction false} FirstFailing(count: nat, fails: set<nat>) returns (i: nat)
    requires Pool.SomeFail(count, fails)
    ensures i < count && i in fails && !Pool.SomeFail(i, fails)
  {
    i :| i < count && i in fails;
    if Pool.SomeFail(i, fails) {
      i := FirstFailing(i, fails);
    }
  }

  ghost predicate CanFail(store: Store, job: Job) {
    exists steps :: Possible(Start(store), steps, job) && Run(Start(store), steps, job).pool.main.ReturnedError?
  }

  // A parse can fail exactly if an item fails by itself or two items have one name, whatever is stored.
  lemma CanFailExactly(store: Store, job: Job)
    ensures CanFail(store, job) <==> Pool.SomeFail(|job.items|, job.fails) || !DistinctNames(job)
  {
    if Pool.SomeFail(|job.items|, job.fails) {
      var i := FirstFailing(|job.items|, job.fails);
      var steps := FirstFailingFails(store, job, i);
    } else if !DistinctNames(job) {
      var i, j :| 0 <= i < j < |job.items| && KeyOf(job.bundle, job.items[i]) == KeyOf(job.bundle, job.items[j]);
      var steps := OvertakenFails(store, job, i, j);
    } else if CanFail(store, job) {
      var steps :| Possible(Start(store), steps, job) && Run(Start(store), steps, job).pool.main.ReturnedError?;
      DistinctNamesDoNotRace(store, steps, job);
    }
  }

  /******* A parse that succeeds *******/

  // Nothing has happened yet, for any number of workers.
  predicate Unstarted(s: State) {
    && s.pool == Pool.Pool(0, false, false, s.pool.workers, [], Pool.Selecting) && s.looks == map[]
    && s.pool.workers != [] && forall w | 0 <= w < |s.pool.workers| :: s.pool.workers[w] == Pool.Ready
  }

  // The first workers have left.
  predicate Leaving(s: State, count: nat) {
    && s.pool.closed && !s.pool.waited && s.pool.main == Pool.Selecting
    && forall w | 0 <= w < |s.pool.workers| :: s.pool.workers[w] == if w < count then Pool.Done else Pool.Ready
  }

  lemma {:induction false} AllLeave(start: State, steps: seq<Step>, job: Job, count: nat) returns (steps': seq<Step>)
    requires Possible(start, steps, job) && Leaving(Run(start, steps, job), count)
    requires count <= |Run(start, steps, job).pool.workers|
    ensures Possible(start, steps', job)
    ensures Leaving(Run(start, steps', job), |Run(start, steps', job).pool.workers|)
    decreases |Run(start, steps, job).pool.workers| - count
  {
    var s := Run(start, steps, job);
    steps' := steps;
    if count < |s.pool.workers| {
      Extend(start, steps, OfPool(Pool.Leave(count)), job);
      steps' := AllLeave(start, steps + [OfPool(Pool.Leave(count))], job, count + 1);
    }
  }

  // One worker can get through everything, with names parsed once or more often.
  lemma {:induction false} CanSucceed(start: State, job: Job) returns (steps: seq<Step>)
    requires Unstarted(start) && !Pool.SomeFail(|job.items|, job.fails)
    ensures Possible(start, steps, job) && Run(start, steps, job).pool.main == Pool.ReturnedNil
  {
    steps := HandleUpTo(start, [], job, 0, |job.items|);
    Extend(start, steps, OfPool(Pool.Close), job);
    steps := AllLeave(start, steps + [OfPool(Pool.Close)], job, 0);
    Extend(start, steps, OfPool(Pool.WaitIsOver), job);
    steps := steps + [OfPool(Pool.WaitIsOver)];
    Extend(start, steps, OfPool(Pool.SelectWait), job);
    steps := steps + [OfPool(Pool.SelectWait)];
  }
}
