/** The worker pool behind the parsing of rules and variables: a feeder hands items to workers over
    an unbuffered channel, a worker that fails blocks until its error is received, and the caller
    waits for the first error or for all workers to be done. Every interleaving is considered. */
module WorkerPool {

  // An item is its position in the list that the feeder goes through.
  datatype Worker = Ready | Busy(item: nat) | Failing(item: nat) | Done

  datatype Main = Selecting | ReturnedNil | ReturnedError(item: nat)

  // `next` is the feeder's position, `log` are the items that workers got through, in this order, and
  // `waited` says that the feeder saw every worker done.
  datatype Pool = Pool(next: nat, closed: bool, waited: bool, workers: seq<Worker>, log: seq<nat>, main: Main)

  // What the feeder, a worker or the caller may do next.
  datatype Step = Hand(worker: nat) | Close | Work(worker: nat) | Leave(worker: nat)
                | WaitIsOver | SelectWait | SelectError(worker: nat)

  const NUMBER_OF_WORKERS := 5

  function Start(): Pool {
    Pool(0, false, false, seq(NUMBER_OF_WORKERS, _ => Ready), [], Selecting)
  }

  predicate AllDone(p: Pool) {
    forall w | 0 <= w < |p.workers| :: p.workers[w] == Done
  }

  // Which items fail is given: `fails` holds those positions, of `count` items.
  predicate Enabled(p: Pool, step: Step, count: nat) {
    match step
    case Hand(w) => p.next < count && w < |p.workers| && p.workers[w] == Ready
    case Close => p.next == count && !p.closed
    case Work(w) => w < |p.workers| && p.workers[w].Busy?
    case Leave(w) => p.closed && w < |p.workers| && p.workers[w] == Ready
    case WaitIsOver => p.closed && !p.waited && AllDone(p)
    case SelectWait => p.waited && p.main == Selecting
    case SelectError(w) => p.main == Selecting && w < |p.workers| && p.workers[w].Failing?
  }

  function Next(p: Pool, step: Step, count: nat, fails: set<nat>): Pool
    requires Enabled(p, step, count)
  {
    match step
    case Hand(w) => p.(next := p.next + 1, workers := p.workers[w := Busy(p.next)])
    case Close => p.(closed := true)
    case Work(w) =>
      var item := p.workers[w].item;
      if item in fails then p.(workers := p.workers[w := Failing(item)])
      else p.(workers := p.workers[w := Ready], log := p.log + [item])
    case Leave(w) => p.(workers := p.workers[w := Done])
    case WaitIsOver => p.(waited := true)
    case SelectWait => p.(main := ReturnedNil)
    case SelectError(w) => p.(main := ReturnedError(p.workers[w].item), workers := p.workers[w := Done])
  }

  predicate Possible(p: Pool, steps: seq<Step>, count: nat, fails: set<nat>)
    decreases |steps|
  {
    steps == [] || (Enabled(p, steps[0], count) && Possible(Next(p, steps[0], count, fails), steps[1..], count, fails))
  }

  function Run(p: Pool, steps: seq<Step>, count: nat, fails: set<nat>): Pool
    requires Possible(p, steps, count, fails)
    decreases |steps|
  {
    if steps == [] then p else Run(Next(p, steps[0], count, fails), steps[1..], count, fails)
  }

  /******* No item gets lost *******/

  function HeldBy(w: Worker, item: nat): nat {
    if (w.Busy? || w.Failing?) && w.item == item then 1 else 0
  }

  // How many workers hold an item.
  function Held(workers: seq<Worker>, item: nat): nat {
    if workers == [] then 0 else HeldBy(workers[0], item) + Held(workers[1..], item)
  }

  function Reported(main: Main, item: nat): nat {
    if main.ReturnedError? && main.item == item then 1 else 0
  }

  lemma {:induction false} HeldAfter(workers: seq<Worker>, w: nat, new_: Worker, item: nat)
    requires w < |workers|
    ensures Held(workers[w := new_], item) + HeldBy(workers[w], item) == Held(workers, item) + HeldBy(new_, item)
    ensures HeldBy(workers[w], item) <= Held(workers, item)
  {
    var after := workers[w := new_];
    if w == 0 {
      assert after[1..] == workers[1..];
    } else {
      assert after[1..] == workers[1..][w - 1 := new_];
      HeldAfter(workers[1..], w - 1, new_, item);
    }
  }

  lemma {:induction false} NothingHeld(workers: seq<Worker>, item: nat)
    requires forall w | 0 <= w < |workers| :: workers[w] == Done || workers[w] == Ready
    ensures Held(workers, item) == 0
  {
    if workers == [] {
    } else {
      NothingHeld(workers[1..], item);
    }
  }

  // Every item handed out is handled, held by one worker, or the one whose error was reported,
  // and only one of these.
  predicate ConservedItem(p: Pool, item: nat) {
    multiset(p.log)[item] + Held(p.workers, item) + Reported(p.main, item) == if item < p.next then 1 else 0
  }

  ghost predicate Conserved(p: Pool) {
    forall item :: ConservedItem(p, item)
  }

  predicate Wired(p: Pool, count: nat) {
    && p.workers != [] && p.next <= count
    && (p.closed ==> p.next == count)
    && (p.waited ==> p.closed && AllDone(p))
    && (p.main == ReturnedNil ==> p.waited)
    && (forall w | 0 <= w < |p.workers| && p.workers[w] == Done :: p.closed || p.main.ReturnedError?)
  }

  // Errors come from items that fail, and no such item is got through.
  predicate Blamed(p: Pool, fails: set<nat>) {
    && (p.main.ReturnedError? ==> p.main.item in fails)
    && (forall w | 0 <= w < |p.workers| && p.workers[w].Failing? :: p.workers[w].item in fails)
    && (forall i | i in p.log :: i !in fails)
  }

  predicate Consistent(p: Pool, count: nat, fails: set<nat>) {
    Wired(p, count) && Blamed(p, fails)
  }

  lemma {:induction false} StepConservesItem(p: Pool, step: Step, count: nat, fails: set<nat>, item: nat)
    requires Enabled(p, step, count) && ConservedItem(p, item)
    ensures ConservedItem(Next(p, step, count, fails), item)
  {
    var p' := Next(p, step, count, fails);
    if step.Hand? || step.Work? || step.Leave? || step.SelectError? {
      HeldAfter(p.workers, step.worker, p'.workers[step.worker], item);
    }
  }

  lemma {:induction false} StepConserves(p: Pool, step: Step, count: nat, fails: set<nat>)
    requires Enabled(p, step, count) && Conserved(p)
    ensures Conserved(Next(p, step, count, fails))
  {
    forall item
      ensures ConservedItem(Next(p, step, count, fails), item)
    {
      StepConservesItem(p, step, count, fails, item);
    }
  }

  lemma {:induction false} StepKeepsWired(p: Pool, step: Step, count: nat, fails: set<nat>)
    requires Enabled(p, step, count) && Wired(p, count)
    ensures Wired(Next(p, step, count, fails), count)
  {
  }

  lemma {:induction false} StepKeepsConsistent(p: Pool, step: Step, count: nat, fails: set<nat>)
    requires Enabled(p, step, count) && Consistent(p, count, fails)
    ensures Consistent(Next(p, step, count, fails), count, fails)
  {
  }

  lemma StartIsConsistent(count: nat, fails: set<nat>)
    ensures Consistent(Start(), count, fails) && Conserved(Start())
  {
    forall item
      ensures ConservedItem(Start(), item)
    {
      NothingHeld(Start().workers, item);
    }
  }

  lemma {:induction false} RunKeeps(p: Pool, steps: seq<Step>, count: nat, fails: set<nat>)
    requires Possible(p, steps, count, fails) && Consistent(p, count, fails) && Conserved(p)
    ensures Consistent(Run(p, steps, count, fails), count, fails) && Conserved(Run(p, steps, count, fails))
    decreases |steps|
  {
    if steps == [] {
    } else {
      StepKeepsConsistent(p, steps[0], count, fails);
      StepConserves(p, steps[0], count, fails);
      RunKeeps(Next(p, steps[0], count, fails), steps[1..], count, fails);
    }
  }

  predicate SomeFail(count: nat, fails: set<nat>) {
    exists i | 0 <= i < count :: i in fails
  }

  // In every interleaving: nil is returned only if no item failed and each was handled exactly
  // once, and an error only if it is that of an item.
  lemma {:induction false} NilOnlyIfAllHandled(steps: seq<Step>, count: nat, fails: set<nat>)
    requires Possible(Start(), steps, count, fails)
    ensures var p := Run(Start(), steps, count, fails);
            && (p.main == ReturnedNil ==>
                  !SomeFail(count, fails) && forall i: nat :: multiset(p.log)[i] == if i < count then 1 else 0)
            && (p.main.ReturnedError? ==> p.main.item in fails && p.main.item < count)
  {
    StartIsConsistent(count, fails);
    RunKeeps(Start(), steps, count, fails);
    var p := Run(Start(), steps, count, fails);
    if p.main == ReturnedNil {
      forall i: nat
        ensures multiset(p.log)[i] == if i < count then 1 else 0
        ensures i < count ==> i !in fails
      {
        assert ConservedItem(p, i);
        NothingHeld(p.workers, i);
        assert i < count ==> i in multiset(p.log) && i in p.log;
      }
    }
    if p.main.ReturnedError? {
      assert ConservedItem(p, p.main.item);
    }
  }

  /******* The caller always returns *******/

  function WorkOf(w: Worker): nat {
    match w
    case Busy(_) => 3
    case Failing(_) => 2
    case Ready => 1
    case Done => 0
  }

  function WorkLeft(workers: seq<Worker>): nat {
    if workers == [] then 0 else WorkOf(workers[0]) + WorkLeft(workers[1..])
  }

  lemma {:induction false} WorkAfter(workers: seq<Worker>, w: nat, new_: Worker)
    requires w < |workers|
    ensures WorkLeft(workers[w := new_]) + WorkOf(workers[w]) == WorkLeft(workers) + WorkOf(new_)
  {
    var after := workers[w := new_];
    if w == 0 {
      assert after[1..] == workers[1..];
    } else {
      assert after[1..] == workers[1..][w - 1 := new_];
      WorkAfter(workers[1..], w - 1, new_);
    }
  }

  function Measure(p: Pool, count: nat): int {
    3 * (count - p.next) + WorkLeft(p.workers) + (if p.closed then 0 else 1) + (if p.waited then 0 else 1)
    + (if p.main == Selecting then 1 else 0)
  }

  lemma {:induction false} StepDecreasesMeasure(p: Pool, step: Step, count: nat, fails: set<nat>)
    requires Enabled(p, step, count) && Wired(p, count)
    ensures Measure(Next(p, step, count, fails), count) < Measure(p, count)
    ensures 0 <= Measure(Next(p, step, count, fails), count)
  {
    var p' := Next(p, step, count, fails);
    if step.Hand? || step.Work? || step.Leave? || step.SelectError? {
      WorkAfter(p.workers, step.worker, p'.workers[step.worker]);
    }
  }

  // As long as the caller waits, something can happen: neither the feeder nor the workers can
  // block each other for good.
  lemma {:induction false} NoDeadlock(p: Pool, count: nat)
    requires Wired(p, count) && p.main == Selecting
    ensures exists step :: Enabled(p, step, count)
  {
    if w :| 0 <= w < |p.workers| && p.workers[w] != Done {
      if p.workers[w].Busy? {
        assert Enabled(p, Work(w), count);
      } else if p.workers[w].Failing? {
        assert Enabled(p, SelectError(w), count);
      } else if p.next < count {
        assert Enabled(p, Hand(w), count);
      } else if !p.closed {
        assert Enabled(p, Close, count);
      } else {
        assert Enabled(p, Leave(w), count);
      }
    } else {
      assert p.workers[0] == Done && p.closed;
      if p.waited {
        assert Enabled(p, SelectWait, count);
      } else {
        assert Enabled(p, WaitIsOver, count);
      }
    }
  }

  lemma {:induction false} RunsEnd(p: Pool, steps: seq<Step>, count: nat, fails: set<nat>)
    requires Possible(p, steps, count, fails) && Consistent(p, count, fails) && 0 <= Measure(p, count)
    ensures |steps| <= Measure(p, count)
    decreases |steps|
  {
    if steps == [] {
    } else {
      StepDecreasesMeasure(p, steps[0], count, fails);
      StepKeepsConsistent(p, steps[0], count, fails);
      RunsEnd(Next(p, steps[0], count, fails), steps[1..], count, fails);
    }
  }

  // So no run is longer than this, and one that cannot go on has returned: nil exactly when no
  // item fails.
  lemma {:induction false} ReturnsNilExactlyIfNoneFails(steps: seq<Step>, count: nat, fails: set<nat>)
    requires Possible(Start(), steps, count, fails)
    ensures |steps| <= 3 * count + 8
    ensures var p := Run(Start(), steps, count, fails);
            (forall step :: !Enabled(p, step, count)) ==>
              p.main != Selecting && (p.main == ReturnedNil <==> !SomeFail(count, fails))
  {
    StartIsConsistent(count, fails);
    RunKeeps(Start(), steps, count, fails);
    StartWork(NUMBER_OF_WORKERS);
    RunsEnd(Start(), steps, count, fails);
    var p := Run(Start(), steps, count, fails);
    NilOnlyIfAllHandled(steps, count, fails);
    if p.main == Selecting {
      NoDeadlock(p, count);
    }
  }

  lemma {:induction false} StartWork(n: nat)
    ensures WorkLeft(seq(n, _ => Ready)) == n
  {
    if n == 0 {
    } else {
      var workers := seq(n, _ => Ready);
      assert workers[1..] == seq(n - 1, _ => Ready);
      StartWork(n - 1);
    }
  }
}
