/** Parsing a bundle: profiles, rules and variables are parsed at the same time, each by a routine
    that then sweeps what is obsolete. The caller returns at the first error or when all three
    are through, and closes the error channel after the first error. */
module BundleParsing {

  datatype Routine = Parsing | SendsParseError | Sweeping | SendsSweepError | Finished | Panicked

  datatype Main = Selecting | ReturnedNil | ReturnedError

  // `swept` are the kinds whose obsolete items were gone through.
  datatype System = System(routines: seq<Routine>, swept: set<nat>, waited: bool, main: Main)

  const NUMBER_OF_KINDS := 3

  datatype Step = Parse(kind: nat) | Sweep(kind: nat) | Receive(kind: nat) | SendOnClosed(kind: nat)
                | WaitIsOver | SelectDone

  // The kinds whose parsing fails, and those whose sweep does.
  datatype Failures = Failures(parse: set<nat>, sweep: set<nat>)

  function Start(): System {
    System(seq(NUMBER_OF_KINDS, _ => Parsing), {}, false, Selecting)
  }

  predicate Sends(r: Routine) {
    r == SendsParseError || r == SendsSweepError
  }

  predicate HasPanicked(s: System) {
    Panicked in s.routines
  }

  // A panic ends the whole program.
  predicate Enabled(s: System, step: Step) {
    && !HasPanicked(s)
    && match step
       case Parse(k) => k < |s.routines| && s.routines[k] == Parsing
       case Sweep(k) => k < |s.routines| && s.routines[k] == Sweeping
       case Receive(k) => k < |s.routines| && Sends(s.routines[k]) && s.main == Selecting
       case SendOnClosed(k) => k < |s.routines| && Sends(s.routines[k]) && s.main == ReturnedError
       case WaitIsOver => !s.waited && forall r | r in s.routines :: r == Finished
       case SelectDone => s.waited && s.main == Selecting
  }

  function Next(s: System, step: Step, f: Failures): System
    requires Enabled(s, step)
  {
    match step
    case Parse(k) => s.(routines := s.routines[k := if k in f.parse then SendsParseError else Sweeping])
    case Sweep(k) =>
      s.(routines := s.routines[k := if k in f.sweep then SendsSweepError else Finished], swept := s.swept + {k})
    case Receive(k) =>
      // A routine whose parsing failed goes on to sweep.
      s.(routines := s.routines[k := if s.routines[k] == SendsParseError then Sweeping else Finished],
         main := ReturnedError)
    case SendOnClosed(k) => s.(routines := s.routines[k := Panicked])
    case WaitIsOver => s.(waited := true)
    case SelectDone => s.(main := ReturnedNil)
  }

  predicate Possible(s: System, steps: seq<Step>, f: Failures)
    decreases |steps|
  {
    steps == [] || (Enabled(s, steps[0]) && Possible(Next(s, steps[0], f), steps[1..], f))
  }

  function Run(s: System, steps: seq<Step>, f: Failures): System
    requires Possible(s, steps, f)
    decreases |steps|
  {
    if steps == [] then s else Run(Next(s, steps[0], f), steps[1..], f)
  }

  // Before an error was received, a routine that got as far as its sweep did not fail to parse, and
  // one that finished did not fail at all.
  predicate RoutineOk(s: System, k: nat, f: Failures)
    requires k < |s.routines|
  {
    && (s.routines[k] == SendsParseError ==> k in f.parse)
    && (s.routines[k] == SendsSweepError ==> k in f.sweep)
    && (k in s.swept <==> s.routines[k] == SendsSweepError || s.routines[k] == Finished)
    && (s.main != ReturnedError ==>
          && (s.routines[k] == Sweeping || s.routines[k] == SendsSweepError || s.routines[k] == Finished ==>
                k !in f.parse)
          && (s.routines[k] == Finished ==> k !in f.sweep))
  }

  predicate Ok(s: System, f: Failures) {
    && |s.routines| == NUMBER_OF_KINDS
    && (HasPanicked(s) ==> s.main == ReturnedError)
    && (!HasPanicked(s) ==> forall k | 0 <= k < |s.routines| :: RoutineOk(s, k, f))
    && (s.waited ==> forall r | r in s.routines :: r == Finished)
    && (s.main == ReturnedNil ==> s.waited)
  }

  lemma {:induction false} StepKeepsOk(s: System, step: Step, f: Failures)
    requires Enabled(s, step) && Ok(s, f)
    ensures Ok(Next(s, step, f), f)
  {
    var s' := Next(s, step, f);
    assert forall k | 0 <= k < |s.routines| :: RoutineOk(s, k, f) && s.routines[k] in s.routines;
    if step.SendOnClosed? {
      assert s'.routines[step.kind] == Panicked;
    } else {
      assert forall r | r in s'.routines :: r in s.routines || r != Panicked;
      forall k | 0 <= k < |s'.routines|
        ensures RoutineOk(s', k, f)
      {
        assert RoutineOk(s, k, f);
      }
    }
  }

  lemma {:induction false} RunKeepsOk(s: System, steps: seq<Step>, f: Failures)
    requires Possible(s, steps, f) && Ok(s, f)
    ensures Ok(Run(s, steps, f), f)
    decreases |steps|
  {
    if steps == [] {
    } else {
      StepKeepsOk(s, steps[0], f);
      RunKeepsOk(Next(s, steps[0], f), steps[1..], f);
    }
  }

  // In every interleaving: success means that every kind was parsed and swept without an error.
  lemma {:induction false} NilOnlyIfAllSucceeded(steps: seq<Step>, f: Failures)
    requires Possible(Start(), steps, f) && Run(Start(), steps, f).main == ReturnedNil
    ensures forall k | 0 <= k < NUMBER_OF_KINDS :: k !in f.parse && k !in f.sweep && k in Run(Start(), steps, f).swept
  {
    RunKeepsOk(Start(), steps, f);
    var s := Run(Start(), steps, f);
    assert !HasPanicked(s);
    forall k | 0 <= k < NUMBER_OF_KINDS
      ensures k !in f.parse && k !in f.sweep && k in s.swept
    {
      assert s.routines[k] in s.routines && RoutineOk(s, k, f);
    }
  }

  // A kind that failed to parse is swept all the same, but only after the error was returned.
  lemma {:induction false} FailedKindSweptOnlyAfterReturn(steps: seq<Step>, f: Failures, k: nat)
    requires Possible(Start(), steps, f) && k < NUMBER_OF_KINDS && k in f.parse
    ensures k in Run(Start(), steps, f).swept ==> Run(Start(), steps, f).main == ReturnedError
  {
    RunKeepsOk(Start(), steps, f);
    var s := Run(Start(), steps, f);
    assert !HasPanicked(s) ==> RoutineOk(s, k, f);
  }

  lemma {:induction false} Extend(s: System, steps: seq<Step>, step: Step, f: Failures)
    requires Possible(s, steps, f) && Enabled(Run(s, steps, f), step)
    ensures Possible(s, steps + [step], f) && Run(s, steps + [step], f) == Next(Run(s, steps, f), step, f)
    decreases |steps|
  {
    if steps == [] {
      assert [step][1..] == [];
    } else {
      assert (steps + [step])[1..] == steps[1..] + [step];
      Extend(Next(s, steps[0], f), steps[1..], step, f);
    }
  }

  lemma FailedKindIsSwept(f: Failures, k: nat) returns (steps: seq<Step>)
    requires k < NUMBER_OF_KINDS && k in f.parse
    ensures Possible(Start(), steps, f) && k in Run(Start(), steps, f).swept
  {
    Extend(Start(), [], Parse(k), f);
    Extend(Start(), [] + [Parse(k)], Receive(k), f);
    Extend(Start(), [] + [Parse(k)] + [Receive(k)], Sweep(k), f);
    steps := [] + [Parse(k)] + [Receive(k)] + [Sweep(k)];
  }

  /******* A second error *******/

  // The errors of a kind: of parsing, of sweeping.
  function ErrorsOf(k: nat, f: Failures): nat {
    (if k in f.parse then 1 else 0) + (if k in f.sweep then 1 else 0)
  }

  function Errors(f: Failures): nat {
    ErrorsOf(0, f) + ErrorsOf(1, f) + ErrorsOf(2, f)
  }

  // Errors that a routine still has to send, in the worst case.
  function ErrorsToCome(r: Routine, k: nat, f: Failures): nat {
    match r
    case Parsing => ErrorsOf(k, f)
    case SendsParseError => 1 + if k in f.sweep then 1 else 0
    case Sweeping => if k in f.sweep then 1 else 0
    case SendsSweepError => 1
    case Finished => 0
    case Panicked => 1
  }

  function AllErrorsToCome(s: System, f: Failures): nat
    requires |s.routines| == NUMBER_OF_KINDS
  {
    ErrorsToCome(s.routines[0], 0, f) + ErrorsToCome(s.routines[1], 1, f) + ErrorsToCome(s.routines[2], 2, f)
  }

  // No step makes up an error: each is still to come, or was the one received.
  lemma {:induction false} NoErrorMadeUp(s: System, steps: seq<Step>, f: Failures)
    requires Possible(s, steps, f) && |s.routines| == NUMBER_OF_KINDS
    ensures var s' := Run(s, steps, f);
            && |s'.routines| == NUMBER_OF_KINDS
            && AllErrorsToCome(s', f) + (if s'.main == ReturnedError then 1 else 0)
               <= AllErrorsToCome(s, f) + (if s.main == ReturnedError then 1 else 0)
    decreases |steps|
  {
    if steps == [] {
    } else {
      NoErrorMadeUp(Next(s, steps[0], f), steps[1..], f);
    }
  }

  // The program can only panic if there are two errors to be sent.
  lemma {:induction false} PanicTakesTwoErrors(steps: seq<Step>, f: Failures)
    requires Possible(Start(), steps, f) && HasPanicked(Run(Start(), steps, f))
    ensures Errors(f) >= 2
  {
    NoErrorMadeUp(Start(), steps, f);
    RunKeepsOk(Start(), steps, f);
    var s := Run(Start(), steps, f);
    var k :| 0 <= k < |s.routines| && s.routines[k] == Panicked;
    assert k == 0 || k == 1 || k == 2;
  }

  // A run after which a kind has an error to send, and nothing was received.
  lemma RunToError(init: seq<Step>, k: nat, f: Failures) returns (steps: seq<Step>)
    requires Possible(Start(), init, f) && k < NUMBER_OF_KINDS && ErrorsOf(k, f) > 0
    requires var s := Run(Start(), init, f);
             |s.routines| == NUMBER_OF_KINDS && s.routines[k] == Parsing && s.main == Selecting && !HasPanicked(s)
    ensures Possible(Start(), steps, f)
    ensures var s, s' := Run(Start(), init, f), Run(Start(), steps, f);
            && s'.routines == s.routines[k := if k in f.parse then SendsParseError else SendsSweepError]
            && s'.main == Selecting && !HasPanicked(s')
  {
    steps := init + [Parse(k)];
    Extend(Start(), init, Parse(k), f);
    if k !in f.parse {
      Extend(Start(), steps, Sweep(k), f);
      steps := steps + [Sweep(k)];
    }
  }

  // And then it can.
  lemma TwoErrorsCanPanic(f: Failures) returns (steps: seq<Step>)
    requires Errors(f) >= 2
    ensures Possible(Start(), steps, f) && HasPanicked(Run(Start(), steps, f))
  {
    var k := if ErrorsOf(0, f) > 0 then 0 else if ErrorsOf(1, f) > 0 then 1 else 2;
    steps := RunToError([], k, f);
    var other := k;
    if ErrorsOf(k, f) == 1 {
      other := if k == 0 && ErrorsOf(1, f) > 0 then 1 else 2;
      steps := RunToError(steps, other, f);
    }
    Extend(Start(), steps, Receive(k), f);
    steps := steps + [Receive(k)];
    if other == k {
      Extend(Start(), steps, Sweep(k), f);
      steps := steps + [Sweep(k)];
    }
    var s := Run(Start(), steps, f);
    Extend(Start(), steps, SendOnClosed(other), f);
    steps := steps + [SendOnClosed(other)];
    assert Run(Start(), steps, f).routines[other] == Panicked;
  }

  ghost predicate CanPanic(f: Failures) {
    exists steps :: Possible(Start(), steps, f) && HasPanicked(Run(Start(), steps, f))
  }

  lemma PanicsExactlyWithTwoErrors(f: Failures)
    ensures CanPanic(f) <==> Errors(f) >= 2
  {
    if Errors(f) >= 2 {
      var steps := TwoErrorsCanPanic(f);
      assert Possible(Start(), steps, f) && HasPanicked(Run(Start(), steps, f));
    }
    if CanPanic(f) {
      var steps :| Possible(Start(), steps, f) && HasPanicked(Run(Start(), steps, f));
      PanicTakesTwoErrors(steps, f);
    }
  }
}
