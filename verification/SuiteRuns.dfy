/** Scans and their suite together: scans run and run again while the suite looks at them now and
    then. What the suite has on record about a scan, when that is out of date without the suite
    noticing, and what a suite that reports COMPLIANT says. */
module SuiteRuns {
  import opened Options
  import opened ScanTypes
  import opened ScanPhases
  import GatherResults
  import Suite = SuiteStatus

  /******* How a result changes *******/

  // Validation rewrites the result of a scan that is done already.
  predicate Rewrites(s: Scan, o: Observation) {
    s.phase == Done &&
    match o.settings
    case DefaultsMissing => false
    case InvalidScanType => s.result != Error
    case InvalidStorageSize => s.result != Error
    case Settled => o.nodesListed && o.handler.NodeScan? && o.handler.nodes == [] && s.result != NotApplicable
  }

  // That is the only way for a result to change while the phase stays.
  lemma ResultChangesWithinPhaseExactly(s: Scan, o: Observation)
    ensures Reconcile(s, o).phase == s.phase && Reconcile(s, o).result != s.result <==> Rewrites(s, o)
  {
  }

  // Only a scan that is done has a result.
  predicate ResultWhenDone(s: Scan) {
    Final(s.result) <==> s.phase == Done
  }

  lemma StepKeepsResultWhenDone(s: Scan, e: Event)
    requires ResultWhenDone(s)
    ensures ResultWhenDone(Apply(s, e))
  {
    if e.Reconciled? {
      StepFollowsEdges(s, e.o);
    }
  }

  // A step gives a scan its result: it ends a run, or rewrites the result of one that has ended.
  predicate Concludes(s: Scan, s': Scan) {
    s'.phase == Done && (s.phase != Done || s'.result != s.result)
  }

  /******* The machine *******/

  // `past` are the scans as they were before each step so far.
  datatype World = World(scans: seq<Scan>, recorded: seq<Suite.ScanStatus>, past: seq<seq<Scan>>)

  // One event of one scan, or a reconcile of the suite. The suite looks at copies of its scans: `points`
  // are the points of the run that they were made at, and without one it sees the scan as it is.
  datatype Step = ScanStep(scan: nat, e: Event) | SuiteLooks(points: seq<nat>)

  predicate Even(names: seq<string>, w: World) {
    |names| == |w.scans| && forall t | 0 <= t < |w.past| :: |w.past[t]| == |names|
  }

  // A scan as it was at some point of the run.
  function ScanAt(names: seq<string>, w: World, t: nat, i: nat): Scan
    requires Even(names, w) && i < |names|
  {
    if t < |w.past| then w.past[t][i] else w.scans[i]
  }

  // The point that the copy of a scan is from.
  function PointOf(w: World, points: seq<nat>, i: nat): (t: nat)
    ensures t <= |w.past|
  {
    if i < |points| && points[i] < |w.past| then points[i] else |w.past|
  }

  function StatusOf(name: string, s: Scan): Suite.ScanStatus {
    Suite.ScanStatus(name, s.phase, s.result)
  }

  // The statuses of the copies.
  function Seen(names: seq<string>, w: World, points: seq<nat>): seq<Suite.ScanStatus>
    requires Even(names, w)
  {
    seq(|names|, i requires 0 <= i < |names| => StatusOf(names[i], ScanAt(names, w, PointOf(w, points, i), i)))
  }

  function Next(names: seq<string>, w: World, step: Step): (w': World)
    requires Even(names, w)
    ensures Even(names, w') && w'.past == w.past + [w.scans]
  {
    match step
    case ScanStep(i, e) =>
      World(if i < |w.scans| then w.scans[i := Apply(w.scans[i], e)] else w.scans, w.recorded, w.past + [w.scans])
    case SuiteLooks(points) =>
      World(w.scans, Suite.RecordFirst(w.recorded, Seen(names, w, points)), w.past + [w.scans])
  }

  function Play(names: seq<string>, w: World, run: seq<Step>): (w': World)
    requires Even(names, w)
    ensures Even(names, w') && |w'.past| == |w.past| + |run|
  {
    if run == [] then w else Next(names, Play(names, w, run[..|run| - 1]), run[|run| - 1])
  }

  // Scans as they are created, and nothing on record.
  predicate Begins(names: seq<string>, w: World) {
    && |names| == |w.scans| && w.recorded == [] && w.past == []
    && (forall i | 0 <= i < |w.scans| :: ScanPhases.Fresh(w.scans[i]))
    && (forall i, j | 0 <= i < j < |names| :: names[i] != names[j])
  }

  /******* The record of a scan *******/

  function RecordOf(recorded: seq<Suite.ScanStatus>, name: string): (r: Option<Suite.ScanStatus>)
    ensures r.Some? ==> r.value in recorded && r.value.name == name
  {
    match Suite.IndexOf(recorded, name)
    case None => None
    case Some(i) => Some(recorded[i])
  }

  lemma RecordChangesOne(recorded: seq<Suite.ScanStatus>, scan: Suite.ScanStatus, name: string)
    ensures RecordOf(Suite.Record(recorded, scan), name) ==
            if name == scan.name then Some(scan) else RecordOf(recorded, name)
  {
    var after := Suite.Record(recorded, scan);
    match Suite.IndexOf(recorded, name) {
      case Some(i) =>
        Suite.IndexOfIs(after, name, i);
      case None =>
        assert forall j | 0 <= j < |recorded| :: recorded[j] in recorded;
        if name == scan.name {
          Suite.IndexOfIs(after, name, |recorded|);
        } else {
          assert forall j | 0 <= j < |after| :: after[j].name != name;
        }
    }
  }

  // A look leaves the record of a scan, or makes it the status of the copy.
  lemma LookRecordsCopy(names: seq<string>, w: World, points: seq<nat>, i: nat)
    requires Even(names, w) && i < |names|
    requires forall i, j | 0 <= i < j < |names| :: names[i] != names[j]
    ensures var before := RecordOf(w.recorded, names[i]);
            var after := RecordOf(Next(names, w, SuiteLooks(points)).recorded, names[i]);
            after == before || after == Some(StatusOf(names[i], ScanAt(names, w, PointOf(w, points, i), i)))
  {
    var statuses := Seen(names, w, points);
    Suite.FirstStale(w.recorded, statuses);
    if Suite.StaleCount(w.recorded, statuses) > 0 {
      var s :| s in statuses && Suite.RecordFirst(w.recorded, statuses) == Suite.Record(w.recorded, s);
      RecordChangesOne(w.recorded, s, names[i]);
      if s.name == names[i] {
        NamedIsItsOwn(names, statuses, s, i);
      }
    }
  }

  lemma NamedIsItsOwn(names: seq<string>, statuses: seq<Suite.ScanStatus>, s: Suite.ScanStatus, i: nat)
    requires |statuses| == |names| && (forall k | 0 <= k < |names| :: statuses[k].name == names[k])
    requires forall i, j | 0 <= i < j < |names| :: names[i] != names[j]
    requires s in statuses && i < |names| && s.name == names[i]
    ensures s == statuses[i]
  {
    var k :| 0 <= k < |statuses| && statuses[k] == s;
    assert names[k] == names[i];
  }

  // The point of the run that the copy on record was made at.
  function RecordedAt(names: seq<string>, w: World, run: seq<Step>, i: nat): (t: Option<nat>)
    requires Even(names, w) && i < |names|
    ensures t.Some? ==> t.value <= |w.past| + |run|
  {
    if run == [] then None
    else
      var init, step := run[..|run| - 1], run[|run| - 1];
      var before := Play(names, w, init);
      var after := Next(names, before, step);
      if step.SuiteLooks? && RecordOf(after.recorded, names[i]) != RecordOf(before.recorded, names[i]) then
        Some(PointOf(before, step.points, i))
      else RecordedAt(names, w, init, i)
  }

  // The record is the status that the scan had at that point.
  lemma {:induction false} RecordIsOfItsPoint(names: seq<string>, w: World, run: seq<Step>, i: nat)
    requires Begins(names, w) && i < |names|
    ensures var w', t := Play(names, w, run), RecordedAt(names, w, run, i);
            RecordOf(w'.recorded, names[i]) ==
            if t.None? then None else Some(StatusOf(names[i], ScanAt(names, w', t.value, i)))
  {
    if run == [] {
    } else {
      var init, step := run[..|run| - 1], run[|run| - 1];
      var before := Play(names, w, init);
      RecordIsOfItsPoint(names, w, init, i);
      if step.SuiteLooks? {
        LookRecordsCopy(names, before, step.points, i);
      }
    }
  }

  /******* What the suite misses *******/

  // What concluded last since some point of the run: a rewritten result, or a whole run.
  datatype Missed = Nothing | Rewritten(result: Result) | RunUnseen(result: Result)

  function MissedSince(names: seq<string>, w: World, run: seq<Step>, i: nat, t: nat): Missed
    requires Even(names, w) && i < |names|
  {
    if |run| <= t then Nothing
    else
      var init, step := run[..|run| - 1], run[|run| - 1];
      var before := Play(names, w, init).scans[i];
      var after := Play(names, w, run).scans[i];
      if !Concludes(before, after) then MissedSince(names, w, init, i, t)
      else if before.phase == Done then Rewritten(after.result)
      else RunUnseen(after.result)
  }

  // What the suite missed of a scan: what concluded since its copy was made.
  function MissedBy(names: seq<string>, w: World, run: seq<Step>, i: nat): Missed
    requires Even(names, w) && i < |names|
  {
    match RecordedAt(names, w, run, i)
    case None => Nothing
    case Some(t) => MissedSince(names, w, run, i, t)
  }

  // A scan that is done has the result that concluded last, or the one it had at the point.
  lemma {:induction false} ResultIsLastConcluded(names: seq<string>, w: World, run: seq<Step>, i: nat, t: nat)
    requires Even(names, w) && w.past == [] && i < |names| && t <= |run|
    ensures var w', missed := Play(names, w, run), MissedSince(names, w, run, i, t);
            w'.scans[i].phase == Done ==>
              if missed.Nothing? then
                ScanAt(names, w', t, i).phase == Done && ScanAt(names, w', t, i).result == w'.scans[i].result
              else
                w'.scans[i].result == missed.result
  {
    if |run| == t {
    } else {
      ResultIsLastConcluded(names, w, run[..|run| - 1], i, t);
    }
  }

  // In every run of scans and suite, the record of a scan that is done is current exactly unless what
  // concluded last since the copy was made had another result.
  lemma CurrentExactlyUnlessMissed(names: seq<string>, w: World, run: seq<Step>, i: nat)
    requires Begins(names, w) && i < |names|
    ensures var w' := Play(names, w, run);
            var record, missed := RecordOf(w'.recorded, names[i]), MissedBy(names, w, run, i);
            record.Some? && w'.scans[i].phase == Done ==>
              (record.value == StatusOf(names[i], w'.scans[i]) <==>
               missed.Nothing? || (missed.result == record.value.result && record.value.phase == Done))
  {
    RecordIsOfItsPoint(names, w, run, i);
    if RecordedAt(names, w, run, i).Some? {
      ResultIsLastConcluded(names, w, run, i, RecordedAt(names, w, run, i).value);
    }
  }

  predicate Failing(s: Scan) {
    Final(s.result) && s.result != Compliant
  }

  // At any point of any run, a scan has a result exactly if it is done.
  lemma {:induction false} ResultsWhenDone(names: seq<string>, w: World, run: seq<Step>, i: nat, t: nat)
    requires Begins(names, w) && i < |names|
    ensures ResultWhenDone(ScanAt(names, Play(names, w, run), t, i))
  {
    if run == [] {
    } else {
      var init, step := run[..|run| - 1], run[|run| - 1];
      var before := Play(names, w, init);
      ResultsWhenDone(names, w, init, i, t);
      if t > |before.past| && step.ScanStep? {
        StepKeepsResultWhenDone(before.scans[i], step.e);
      }
    }
  }

  // So while a suite reports COMPLIANT, a scan it has on record has failed exactly if the suite missed
  // that: since the copy on record its result was rewritten after the end, or it ran again.
  lemma CompliantSuiteFailsExactly(names: seq<string>, w: World, run: seq<Step>, i: nat)
    requires Begins(names, w) && i < |names|
    requires var w' := Play(names, w, run);
             Suite.IsLowestResult(w'.recorded, Compliant) && RecordOf(w'.recorded, names[i]).Some?
    ensures var s, missed := Play(names, w, run).scans[i], MissedBy(names, w, run, i);
            Failing(s) <==> s.phase == Done && !missed.Nothing? && missed.result != Compliant
  {
    var w' := Play(names, w, run);
    RecordIsOfItsPoint(names, w, run, i);
    var t := RecordedAt(names, w, run, i).value;
    ResultsWhenDone(names, w, run, i, t);
    ResultsWhenDone(names, w, run, i, |run|);
    Suite.CompliantWhenAllCompliant(w'.recorded, Compliant);
    ResultIsLastConcluded(names, w, run, i, t);
  }

  /******* The two ways *******/

  // Since some point of the run, the scan was reset.
  function ResetSince(names: seq<string>, w: World, run: seq<Step>, i: nat, t: nat): bool
    requires Even(names, w) && i < |names|
  {
    |run| > t &&
    var init := run[..|run| - 1];
    (Resets(Play(names, w, init).scans[i], Play(names, w, run).scans[i]) || ResetSince(names, w, init, i, t))
  }

  // A scan that was done stays so until a reset, and no run of it concludes.
  lemma {:induction false} DoneUntilReset(names: seq<string>, w: World, run: seq<Step>, i: nat, t: nat)
    requires Even(names, w) && w.past == [] && i < |names| && t <= |run|
    ensures var w' := Play(names, w, run);
            ScanAt(names, w', t, i).phase == Done && !ResetSince(names, w, run, i, t) ==>
              w'.scans[i].phase == Done && !MissedSince(names, w, run, i, t).RunUnseen?
  {
    if |run| == t {
    } else {
      var init, step := run[..|run| - 1], run[|run| - 1];
      var before := Play(names, w, init);
      DoneUntilReset(names, w, init, i, t);
      if step.ScanStep? && step.scan == i && step.e.Reconciled? {
        StepFollowsEdges(before.scans[i], step.e.o);
      }
    }
  }

  // A whole run is missed only if a rescan started it since the copy on record was made.
  lemma {:induction false} UnseenRunIsARescan(names: seq<string>, w: World, run: seq<Step>, i: nat)
    requires Begins(names, w) && i < |names|
    ensures var w' := Play(names, w, run);
            var record, t := RecordOf(w'.recorded, names[i]), RecordedAt(names, w, run, i);
            && (record.Some? <==> t.Some?)
            && (record.Some? && record.value.phase == Done && !ResetSince(names, w, run, i, t.value) ==>
                  w'.scans[i].phase == Done && !MissedBy(names, w, run, i).RunUnseen?)
  {
    RecordIsOfItsPoint(names, w, run, i);
    if RecordedAt(names, w, run, i).Some? {
      DoneUntilReset(names, w, run, i, RecordedAt(names, w, run, i).value);
    }
  }

  // A result is rewritten exactly by a reconcile that finds the scan done and its settings invalid, or
  // no nodes for it.
  lemma RewrittenExactly(names: seq<string>, w: World, step: Step, i: nat)
    requires Even(names, w) && i < |names| && w.scans[i].phase == Done
    ensures Concludes(w.scans[i], Next(names, w, step).scans[i]) <==>
            step.ScanStep? && step.scan == i && step.e.Reconciled? && Rewrites(w.scans[i], step.e.o)
  {
    if step.ScanStep? && step.scan == i && step.e.Reconciled? {
      ResultChangesWithinPhaseExactly(w.scans[i], step.e.o);
    }
  }

  /******* Runs that go unseen *******/

  lemma {:induction false} PlayOn(names: seq<string>, w: World, run: seq<Step>, more: seq<Step>)
    requires Even(names, w)
    ensures Play(names, w, run + more) == Play(names, Play(names, w, run), more)
  {
    if more == [] {
      assert run + more == run;
    } else {
      assert (run + more)[..|run + more| - 1] == run + more[..|more| - 1];
      PlayOn(names, w, run, more[..|more| - 1]);
    }
  }

  // A platform scan whose pod finishes, with some result.
  function Finds(result: Result): Observation {
    TIMING_OUT.(handler := GatherResults.PlatformScan(GatherResults.Ready(result, false)), pods := [PodSucceeded],
                aggregation := AggregatorFinished)
  }

  function Times<T>(x: T, n: nat): (s: seq<T>)
    ensures |s| == n && forall k | 0 <= k < n :: s[k] == x
  {
    seq(n, _ => x)
  }

  lemma PlayMore(names: seq<string>, w: World, step: Step, n: nat)
    requires Even(names, w)
    ensures Play(names, w, Times(step, n + 1)) == Next(names, Play(names, w, Times(step, n)), step)
  {
    assert Times(step, n + 1)[..n] == Times(step, n);
  }

  lemma {:induction false} ScanAlone(names: seq<string>, w: World, e: Event, n: nat)
    requires Even(names, w) && |names| == 1
    ensures Play(names, w, Times(ScanStep(0, e), n)).scans == [ScanPhases.Run(w.scans[0], Times(e, n))]
    ensures Play(names, w, Times(ScanStep(0, e), n)).recorded == w.recorded
  {
    if n == 0 {
      assert w.scans == [w.scans[0]];
    } else {
      ScanAlone(names, w, e, n - 1);
      PlayMore(names, w, ScanStep(0, e), n - 1);
      assert Times(e, n)[..n - 1] == Times(e, n - 1);
    }
  }

  // How many reconciles a scan takes to the result.
  function ToResult(s: Scan): nat {
    match s.phase
    case NoPhase => 6
    case Pending => if s.rescan then 6 else 5
    case Launching => 4
    case Running => 3
    case Aggregating => if s.counted then 1 else 2
    case Done => if s.rescan then 7 else 0
  }

  // Not held up by an old annotation.
  predicate Ready(s: Scan) {
    match s.phase
    case NoPhase => !s.rescan && !s.timedOut && !s.counted
    case Pending => s.rescan || (!s.timedOut && !s.counted)
    case Launching => !s.counted && !s.rescan
    case Running => !s.counted && !s.rescan
    case Aggregating => !s.rescan
    case Done => true
  }

  lemma FindsStep(s: Scan, result: Result)
    requires (result == Compliant || result == NonCompliant) && Ready(s) && ToResult(s) > 0
    ensures var s' := Reconcile(s, Finds(result));
            && Ready(s') && ToResult(s') == ToResult(s) - 1
            && (ToResult(s') == 0 ==> s'.result == result)
  {
    assert WorkloadOf([PodSucceeded]) == WorkloadFinished by {
      assert [PodSucceeded][1..] == [];
    }
  }

  lemma {:induction false} FindsAfter(s: Scan, result: Result, n: nat)
    requires (result == Compliant || result == NonCompliant) && Ready(s) && n <= ToResult(s)
    ensures var s' := ScanPhases.Run(s, Times(Reconciled(Finds(result)), n));
            && Ready(s') && ToResult(s') == ToResult(s) - n
            && (n > 0 && ToResult(s') == 0 ==> s'.result == result)
  {
    var e := Reconciled(Finds(result));
    if n == 0 {
    } else {
      FindsAfter(s, result, n - 1);
      FindsStep(ScanPhases.Run(s, Times(e, n - 1)), result);
      assert Times(e, n)[..n - 1] == Times(e, n - 1);
    }
  }

  // So many reconciles, and nothing else.
  function FindingSteps(s: Scan, result: Result): seq<Step> {
    Times(ScanStep(0, Reconciled(Finds(result))), ToResult(s))
  }

  lemma ScanFinds(names: seq<string>, w: World, result: Result)
    requires Even(names, w) && |names| == 1 && Ready(w.scans[0]) && ToResult(w.scans[0]) > 0
    requires result == Compliant || result == NonCompliant
    ensures var w' := Play(names, w, FindingSteps(w.scans[0], result));
            && w'.scans[0].phase == Done && w'.scans[0].result == result && !w'.scans[0].rescan
            && w'.recorded == w.recorded
  {
    ScanAlone(names, w, Reconciled(Finds(result)), ToResult(w.scans[0]));
    FindsAfter(w.scans[0], result, ToResult(w.scans[0]));
  }

  lemma {:induction false} NothingToRecord(names: seq<string>, w: World, looks: nat)
    requires Even(names, w) && Suite.StaleCount(w.recorded, Seen(names, w, [])) == 0
    ensures var w' := Play(names, w, Times(SuiteLooks([]), looks)); w'.scans == w.scans && w'.recorded == w.recorded
  {
    if looks == 0 {
    } else {
      NothingToRecord(names, w, looks - 1);
      PlayMore(names, w, SuiteLooks([]), looks - 1);
      var before := Play(names, w, Times(SuiteLooks([]), looks - 1));
      assert Seen(names, before, []) == Seen(names, w, []);
      Suite.FirstStale(w.recorded, Seen(names, w, []));
    }
  }

  // A suite of one scan that reports COMPLIANT while the scan has failed, and goes on so.
  ghost predicate Deceived(names: seq<string>, w: World)
    requires Even(names, w) && |names| == 1
  {
    && w.scans[0].phase == Done && Failing(w.scans[0])
    && w.recorded == [Suite.ScanStatus(names[0], Done, Compliant)]
    && Suite.IsLowestResult(w.recorded, Compliant)
  }

  lemma DeceivedForGood(names: seq<string>, w: World, looks: nat)
    requires Even(names, w) && |names| == 1 && Deceived(names, w)
    ensures Deceived(names, Play(names, w, Times(SuiteLooks([]), looks)))
  {
    NothingToRecord(names, w, looks);
  }

  lemma IsDeceived(names: seq<string>, w: World)
    requires Even(names, w) && |names| == 1 && w.scans[0].phase == Done && Failing(w.scans[0])
    requires w.recorded == [Suite.ScanStatus(names[0], Done, Compliant)]
    ensures Deceived(names, w)
  {
    assert Suite.FirstLowestAt(Suite.RESULT_ORDER, Suite.Results(w.recorded), Compliant, 0);
  }

  // The run up to the first result, as it is created.
  lemma FirstResult(names: seq<string>, w: World) returns (run: seq<Step>)
    requires Begins(names, w) && |names| == 1
    ensures var w' := Play(names, w, run);
            && w'.scans[0].phase == Done && w'.scans[0].result == Compliant && !w'.scans[0].rescan
            && w'.recorded == []
    ensures forall step | step in run :: step == ScanStep(0, Reconciled(Finds(Compliant)))
  {
    run := FindingSteps(w.scans[0], Compliant);
    ScanFinds(names, w, Compliant);
  }

  // One step more.
  lemma Played(names: seq<string>, w: World, run: seq<Step>, step: Step) returns (run': seq<Step>)
    requires Even(names, w)
    ensures run' == run + [step] && Play(names, w, run') == Next(names, Play(names, w, run), step)
  {
    run' := run + [step];
    assert run'[..|run|] == run;
  }

  // A step that gives the scan another result, after something was recorded, is missed.
  lemma LastIsMissed(names: seq<string>, w: World, run: seq<Step>, step: Step)
    requires Begins(names, w) && |names| == 1 && step.ScanStep?
    requires RecordOf(Play(names, w, run).recorded, names[0]).Some?
    requires var before := Play(names, w, run); Concludes(before.scans[0], Next(names, before, step).scans[0])
    ensures var before := Play(names, w, run);
            var after := Next(names, before, step);
            MissedBy(names, w, run + [step], 0) ==
            if before.scans[0].phase == Done then Rewritten(after.scans[0].result) else RunUnseen(after.scans[0].result)
  {
    RecordIsOfItsPoint(names, w, run, 0);
    var run' := Played(names, w, run, step);
    assert run'[..|run|] == run;
  }

  // The suite only ever looks at scans as they are.
  predicate LooksAreCurrent(run: seq<Step>) {
    forall step | step in run && step.SuiteLooks? :: step.points == []
  }

  // From the creation of a scan: it is found compliant and recorded; a rescan is asked for and finds a
  // gap, all between two looks; and from then on looks are in vain.
  lemma RescanGoesUnseen(names: seq<string>, w: World, looks: nat) returns (run: seq<Step>)
    requires Begins(names, w) && |names| == 1
    ensures LooksAreCurrent(run) && MissedBy(names, w, run, 0) == RunUnseen(NonCompliant)
    ensures Deceived(names, Play(names, w, run))
    ensures Deceived(names, Play(names, w, run + Times(SuiteLooks([]), looks)))
  {
    run := FirstResult(names, w);
    run := Played(names, w, run, SuiteLooks([]));
    run := Played(names, w, run, ScanStep(0, UserRescan));
    run := RescanFindsGap(names, w, run);
    IsDeceived(names, Play(names, w, run));
    PlayOn(names, w, run, Times(SuiteLooks([]), looks));
    DeceivedForGood(names, Play(names, w, run), looks);
  }

  lemma RescanFindsGap(names: seq<string>, w: World, run: seq<Step>) returns (run': seq<Step>)
    requires Begins(names, w) && |names| == 1 && LooksAreCurrent(run)
    requires var w' := Play(names, w, run);
             w'.scans[0].phase == Done && w'.scans[0].rescan && RecordOf(w'.recorded, names[0]).Some?
    ensures LooksAreCurrent(run') && MissedBy(names, w, run', 0) == RunUnseen(NonCompliant)
    ensures var w' := Play(names, w, run');
            && w'.scans[0].phase == Done && w'.scans[0].result == NonCompliant
            && w'.recorded == Play(names, w, run).recorded
  {
    var asked := Play(names, w, run);
    var e := Reconciled(Finds(NonCompliant));
    var most := Times(ScanStep(0, e), 6);
    PlayOn(names, w, run, most);
    ScanAlone(names, asked, e, 6);
    FindsAfter(asked.scans[0], NonCompliant, 6);
    FindsStep(Play(names, w, run + most).scans[0], NonCompliant);
    LastIsMissed(names, w, run + most, ScanStep(0, e));
    run' := Played(names, w, run + most, ScanStep(0, e));
  }

  // The settings of the scan are found invalid.
  const INVALID := TIMING_OUT.(settings := InvalidScanType)

  // The first look at a scan, with a copy from before its last step.
  lemma FirstLookAtOldCopy(names: seq<string>, w: World, run: seq<Step>, e: Event) returns (run': seq<Step>)
    requires Begins(names, w) && |names| == 1 && Play(names, w, run).recorded == []
    ensures run' == run + [ScanStep(0, e), SuiteLooks([|run|])]
    ensures Play(names, w, run').scans == [Apply(Play(names, w, run).scans[0], e)]
    ensures Play(names, w, run').recorded == [StatusOf(names[0], Play(names, w, run).scans[0])]
    ensures RecordedAt(names, w, run', 0) == Some(|run|)
  {
    var one := Played(names, w, run, ScanStep(0, e));
    run' := Played(names, w, one, SuiteLooks([|run|]));
    assert run'[..|one|] == one && one[..|run|] == run;
    var before := Play(names, w, one);
    assert Seen(names, before, [|run|]) == [StatusOf(names[0], Play(names, w, run).scans[0])];
    Suite.IndexOfIs(Play(names, w, run').recorded, names[0], 0);
  }

  lemma OldCopyMisses(names: seq<string>, w: World, run: seq<Step>, run': seq<Step>, e: Event)
    requires Begins(names, w) && |names| == 1 && run' == run + [ScanStep(0, e), SuiteLooks([|run|])]
    requires RecordedAt(names, w, run', 0) == Some(|run|) && Play(names, w, run).scans[0].phase == Done
    requires Concludes(Play(names, w, run).scans[0], Apply(Play(names, w, run).scans[0], e))
    ensures MissedBy(names, w, run', 0) == Rewritten(Apply(Play(names, w, run).scans[0], e).result)
  {
    var one := run'[..|run'| - 1];
    assert one[..|one| - 1] == run && one[|one| - 1] == ScanStep(0, e);
    assert MissedSince(names, w, one, 0, |run|) == Rewritten(Apply(Play(names, w, run).scans[0], e).result);
    assert Play(names, w, run').scans == Play(names, w, one).scans;
  }

  // And with a copy from before validation turned the result to ERROR, the first look already records
  // what is over, without any rescan.
  lemma OldCopyIsBelieved(names: seq<string>, w: World, looks: nat) returns (run: seq<Step>)
    requires Begins(names, w) && |names| == 1
    ensures ScanStep(0, UserRescan) !in run && MissedBy(names, w, run, 0) == Rewritten(Error)
    ensures Deceived(names, Play(names, w, run))
    ensures Deceived(names, Play(names, w, run + Times(SuiteLooks([]), looks)))
  {
    var first := FirstResult(names, w);
    run := FirstLookAtOldCopy(names, w, first, Reconciled(INVALID));
    OldCopyMisses(names, w, first, run, Reconciled(INVALID));
    IsDeceived(names, Play(names, w, run));
    PlayOn(names, w, run, Times(SuiteLooks([]), looks));
    DeceivedForGood(names, Play(names, w, run), looks);
  }
}
