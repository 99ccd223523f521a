/** The result of a scan from the results of its nodes: what dominates, what depends on the order
    in which the nodes are listed, and when skipping an unschedulable node really skips it. */
module GatherResults {
  import opened Options
  import opened Permutations
  import opened ScanTypes
  import CheckResults

  // What is found for a node. A ready ConfigMap is annotated with a result.
  datatype NodeReport = NoConfigMap | NotReady | Ready(annotation: Result, unschedulable: bool)

  datatype Gathered = Gathered(result: Result, ready: bool, err: bool)

  // Anything but the three proper outcomes is an error.
  function ScanResult(annotation: Result): Result {
    if annotation == Compliant || annotation == NonCompliant || annotation == NotApplicable then annotation else Error
  }

  predicate HardError(node: NodeReport, strict: bool) {
    node.Ready? && ScanResult(node.annotation) == Error && (strict || !node.unschedulable)
  }

  // An unschedulable node in a scan that is not strict: its error is meant to be ignored.
  predicate Skipped(node: NodeReport, strict: bool) {
    node.Ready? && ScanResult(node.annotation) == Error && !strict && node.unschedulable
  }

  predicate HasHardError(nodes: seq<NodeReport>, strict: bool) {
    exists n | n in nodes :: HardError(n, strict)
  }

  predicate HasNonCompliant(nodes: seq<NodeReport>) {
    exists n | n in nodes :: n.Ready? && n.annotation == NonCompliant
  }

  predicate AllReady(nodes: seq<NodeReport>) {
    forall n | n in nodes :: n.Ready?
  }

  function LastReady(nodes: seq<NodeReport>): (last: Option<NodeReport>)
    ensures last.Some? ==> last.value in nodes && last.value.Ready?
    ensures last.None? <==> forall n | n in nodes :: !n.Ready?
  {
    if nodes == [] then None
    else if nodes[|nodes| - 1].Ready? then Some(nodes[|nodes| - 1])
    else
      assert nodes == nodes[..|nodes| - 1] + [nodes[|nodes| - 1]];
      LastReady(nodes[..|nodes| - 1])
  }

  function LastResult(nodes: seq<NodeReport>): Result {
    match LastReady(nodes)
    case None => NoResult
    case Some(n) => ScanResult(n.annotation)
  }

  // An error that counts beats everything, non-compliance beats the rest, and otherwise the last
  // node with a result decides.
  function NodeGather(nodes: seq<NodeReport>, strict: bool): Gathered {
    if HasHardError(nodes, strict) then Gathered(Error, true, true)
    else if HasNonCompliant(nodes) then Gathered(NonCompliant, AllReady(nodes), false)
    else Gathered(LastResult(nodes), AllReady(nodes), false)
  }

  method GatherNodeResults(nodes: seq<NodeReport>, strict: bool) returns (g: Gathered)
    ensures g == NodeGather(nodes, strict)
  {
    var lastNonCompliance, result := NoResult, NoResult;
    var compliant, isReady := true, true;
    for i := 0 to |nodes|
      invariant !HasHardError(nodes[..i], strict)
      invariant compliant <==> !HasNonCompliant(nodes[..i])
      invariant !compliant ==> lastNonCompliance == NonCompliant
      invariant isReady <==> AllReady(nodes[..i])
      invariant result == LastResult(nodes[..i])
    {
      var node := nodes[i];
      assert nodes[..i + 1] == nodes[..i] + [node];
      if !node.Ready? {
        isReady := false;
        continue;
      }
      result := ScanResult(node.annotation);
      if result == Error {
        if !strict && node.unschedulable {
          continue;
        }
        assert node in nodes && HardError(node, strict);
        return Gathered(result, true, true);
      }
      if result == NonCompliant {
        lastNonCompliance, compliant := result, false;
      }
    }
    assert nodes[..|nodes|] == nodes;
    if !compliant {
      return Gathered(lastNonCompliance, isReady, false);
    }
    return Gathered(result, isReady, false);
  }

  /******* Where the annotation comes from *******/

  datatype ExitCode = NoExitCode | ExitCompliant | ExitNonCompliant | ExitOther

  predicate SomePass(statuses: seq<Option<CheckResults.Status>>) {
    Some(CheckResults.Pass) in statuses
  }

  // The aggregator turns the scanner's exit code into the annotation. A scanner that skipped every
  // check exits like one that found nothing wrong, so at least one check has to have passed.
  method AnnotationFor(exitCode: ExitCode, statuses: seq<Option<CheckResults.Status>>) returns (result: Result)
    ensures result == Compliant <==> exitCode == ExitCompliant && SomePass(statuses)
    ensures result == NotApplicable <==> exitCode == ExitCompliant && !SomePass(statuses)
    ensures result == NonCompliant <==> exitCode == ExitNonCompliant
    ensures ScanResult(result) == result
  {
    result := match exitCode
      case ExitCompliant => Compliant
      case ExitNonCompliant => NonCompliant
      case _ => Error;
    if result == Compliant {
      var gotPass := false;
      for i := 0 to |statuses|
        invariant !gotPass && Some(CheckResults.Pass) !in statuses[..i]
      {
        if statuses[i] == Some(CheckResults.Pass) {
          gotPass := true;
          break;
        }
      }
      if !gotPass {
        assert statuses[..|statuses|] == statuses;
        result := NotApplicable;
      }
    }
  }

  /******* Order of the nodes *******/

  ghost predicate SameInEveryOrder(nodes: seq<NodeReport>, strict: bool) {
    forall other: seq<NodeReport> | multiset(other) == multiset(nodes) ::
      NodeGather(other, strict) == NodeGather(nodes, strict)
  }

  predicate AllSame(nodes: seq<NodeReport>) {
    forall n, m | n in nodes && m in nodes && n.Ready? && m.Ready? ::
      ScanResult(n.annotation) == ScanResult(m.annotation)
  }

  lemma OrderKeepsFacts(nodes: seq<NodeReport>, other: seq<NodeReport>)
    requires multiset(other) == multiset(nodes)
    ensures forall n :: n in nodes <==> n in other
    ensures HasHardError(other, true) == HasHardError(nodes, true)
    ensures HasHardError(other, false) == HasHardError(nodes, false)
    ensures HasNonCompliant(other) == HasNonCompliant(nodes) && AllReady(other) == AllReady(nodes)
  {
    SameMembers(nodes, other);
  }

  // Listing the nodes in another order changes the outcome exactly when nothing dominates and
  // the nodes do not all say the same.
  lemma OrderIndependence(nodes: seq<NodeReport>, strict: bool)
    ensures SameInEveryOrder(nodes, strict) <==>
            HasHardError(nodes, strict) || HasNonCompliant(nodes) || AllSame(nodes)
  {
    if HasHardError(nodes, strict) || HasNonCompliant(nodes) || AllSame(nodes) {
      forall other: seq<NodeReport> | multiset(other) == multiset(nodes)
        ensures NodeGather(other, strict) == NodeGather(nodes, strict)
      {
        OrderKeepsFacts(nodes, other);
        if LastReady(other).Some? {
          assert LastReady(other).value in nodes && LastReady(nodes).Some?;
        }
      }
    } else {
      var n, m :| n in nodes && m in nodes && n.Ready? && m.Ready?
                  && ScanResult(n.annotation) != ScanResult(m.annotation);
      if SameInEveryOrder(nodes, strict) {
        MoveToBack(nodes, strict, n);
        MoveToBack(nodes, strict, m);
      }
    }
  }

  lemma MoveToBack(nodes: seq<NodeReport>, strict: bool, n: NodeReport)
    requires n in nodes && n.Ready? && !HasHardError(nodes, strict) && !HasNonCompliant(nodes)
    requires SameInEveryOrder(nodes, strict)
    ensures NodeGather(nodes, strict).result == ScanResult(n.annotation)
  {
    var i :| 0 <= i < |nodes| && nodes[i] == n;
    var other := nodes[..i] + nodes[i + 1..] + [n];
    assert nodes == nodes[..i] + [n] + nodes[i + 1..];
    assert multiset(other) == multiset(nodes);
    assert NodeGather(other, strict) == NodeGather(nodes, strict);
    OrderKeepsFacts(nodes, other);
    assert !HasHardError(other, strict) && !HasNonCompliant(other);
    assert LastReady(other) == Some(n);
  }

  /******* Skipped nodes *******/

  function Kept(nodes: seq<NodeReport>, strict: bool): (kept: seq<NodeReport>)
    ensures forall n :: n in kept <==> n in nodes && !Skipped(n, strict)
  {
    if nodes == [] then []
    else
      var init, last := nodes[..|nodes| - 1], nodes[|nodes| - 1];
      assert nodes == init + [last];
      Kept(init, strict) + if Skipped(last, strict) then [] else [last]
  }

  lemma {:induction false} LastKept(nodes: seq<NodeReport>, strict: bool)
    ensures LastReady(nodes).Some? && !Skipped(LastReady(nodes).value, strict) ==>
              LastReady(Kept(nodes, strict)) == LastReady(nodes)
  {
    if nodes == [] {
    } else {
      var init, last := nodes[..|nodes| - 1], nodes[|nodes| - 1];
      LastKept(init, strict);
      if !Skipped(last, strict) {
        assert Kept(nodes, strict)[..|Kept(nodes, strict)| - 1] == Kept(init, strict);
      }
    }
  }

  // The error of a skipped node is ignored exactly when something dominates or the last node
  // with a result is not a skipped one; otherwise the scan ends in ERROR because of it.
  lemma SkippingSkips(nodes: seq<NodeReport>, strict: bool)
    ensures NodeGather(nodes, strict) == NodeGather(Kept(nodes, strict), strict) <==>
            || HasHardError(nodes, strict) || HasNonCompliant(nodes)
            || LastReady(nodes).None? || !Skipped(LastReady(nodes).value, strict)
  {
    var kept := Kept(nodes, strict);
    LastKept(nodes, strict);
    assert HasHardError(kept, strict) == HasHardError(nodes, strict);
    assert HasNonCompliant(kept) == HasNonCompliant(nodes);
    assert AllReady(kept) == AllReady(nodes);
    if LastReady(kept).Some? && !HasHardError(nodes, strict) {
      assert LastResult(kept) != Error;
    }
  }

  /******* All kinds of scans *******/

  datatype Handler = NodeScan(nodes: seq<NodeReport>, strict: bool, unschedulableNode: bool)
                   | PlatformScan(configMap: NodeReport)
                   | CelScan(listed: bool, failing: bool)

  function HandlerGather(h: Handler): Gathered {
    match h
    case NodeScan(nodes, strict, _) => NodeGather(nodes, strict)
    case PlatformScan(cm) =>
      if cm.Ready? then Gathered(ScanResult(cm.annotation), true, ScanResult(cm.annotation) == Error)
      else Gathered(NoResult, false, false)
    case CelScan(listed, failing) => Gathered(if failing then NonCompliant else Compliant, listed, false)
  }

  // Results labelled inconsistent override everything but an error; `labelled` counts them, and
  // is None if they could not be listed.
  function Gather(h: Handler, labelled: Option<nat>): Gathered {
    var g := HandlerGather(h);
    if g.err then g
    else if labelled.Some? && labelled.value > 0 then Gathered(Inconsistent, g.ready, true)
    else Gathered(g.result, g.ready && labelled.Some?, false)
  }

  // A result that is acted on is a final one, as long as there is at least one node.
  lemma GatheredIsFinal(h: Handler, labelled: Option<nat>)
    requires h.NodeScan? ==> h.nodes != []
    requires Gather(h, labelled).ready || Gather(h, labelled).err
    ensures Final(Gather(h, labelled).result)
  {
    if h.NodeScan? {
      assert h.nodes[0] in h.nodes;
    }
  }

  /******* What the outcome means *******/

  // Any annotation but the three proper outcomes is an error. In a scan that is not strict, that of an
  // unschedulable node does not count.
  predicate ErrorCounts(h: Handler) {
    match h
    case NodeScan(nodes, strict, _) =>
      exists n | n in nodes ::
        && n.Ready? && n.annotation != Compliant && n.annotation != NonCompliant && n.annotation != NotApplicable
        && (strict || !n.unschedulable)
    case PlatformScan(cm) =>
      cm.Ready? && cm.annotation != Compliant && cm.annotation != NonCompliant && cm.annotation != NotApplicable
    case CelScan(_, _) => false
  }

  predicate FindsNonCompliance(h: Handler) {
    match h
    case NodeScan(nodes, _, _) => exists n | n in nodes :: n.Ready? && n.annotation == NonCompliant
    case PlatformScan(cm) => cm.Ready? && cm.annotation == NonCompliant
    case CelScan(_, failing) => failing
  }

  predicate AllReported(h: Handler) {
    match h
    case NodeScan(nodes, _, _) => forall n | n in nodes :: n.Ready?
    case PlatformScan(cm) => cm.Ready?
    case CelScan(listed, _) => listed
  }

  // What was reported last: by the last node that is ready, or by the platform. CEL checks are only
  // found to fail or not.
  predicate LastReports(h: Handler, annotation: Result) {
    match h
    case NodeScan(nodes, _, _) =>
      exists i | 0 <= i < |nodes| ::
        nodes[i].Ready? && nodes[i].annotation == annotation && forall j | i < j < |nodes| :: !nodes[j].Ready?
    case PlatformScan(cm) => cm.Ready? && cm.annotation == annotation
    case CelScan(_, failing) => annotation == Compliant && !failing
  }

  predicate SomeLabelled(labelled: Option<nat>) {
    labelled.Some? && labelled.value > 0
  }

  // What a scan ends with, given what was found. An error that does not count still decides if it was
  // reported last and nothing else was found.
  ghost predicate IsOutcome(h: Handler, labelled: Option<nat>, result: Result) {
    && (result == Error <==>
          || ErrorCounts(h)
          || (!SomeLabelled(labelled) && !FindsNonCompliance(h) &&
              exists a | a != Compliant && a != NonCompliant && a != NotApplicable :: LastReports(h, a)))
    && (result == Inconsistent <==> !ErrorCounts(h) && SomeLabelled(labelled))
    && (result == NonCompliant <==> !ErrorCounts(h) && !SomeLabelled(labelled) && FindsNonCompliance(h))
    && (result == NotApplicable <==>
          !ErrorCounts(h) && !SomeLabelled(labelled) && !FindsNonCompliance(h) && LastReports(h, NotApplicable))
    && (result == Compliant <==>
          !ErrorCounts(h) && !SomeLabelled(labelled) && !FindsNonCompliance(h) && LastReports(h, Compliant))
  }

  // Enough is known to end the scan: an error, inconsistent results, or everything.
  predicate CanEnd(h: Handler, labelled: Option<nat>) {
    ErrorCounts(h) || SomeLabelled(labelled) || (AllReported(h) && labelled == Some(0))
  }

  lemma {:induction false} LastReadyReports(nodes: seq<NodeReport>, annotation: Result)
    ensures LastReady(nodes).Some? && LastReady(nodes).value.annotation == annotation <==>
            exists i | 0 <= i < |nodes| ::
              nodes[i].Ready? && nodes[i].annotation == annotation && forall j | i < j < |nodes| :: !nodes[j].Ready?
  {
    if nodes == [] {
    } else {
      var init, last := nodes[..|nodes| - 1], nodes[|nodes| - 1];
      if last.Ready? {
        assert nodes[|init|].Ready?;
      } else {
        LastReadyReports(init, annotation);
        if i :| 0 <= i < |init| && init[i].Ready? && init[i].annotation == annotation &&
                forall j | i < j < |init| :: !init[j].Ready? {
          assert nodes[i] == init[i] && forall j | i < j < |nodes| :: !nodes[j].Ready?;
        }
        if i :| 0 <= i < |nodes| && nodes[i].Ready? && nodes[i].annotation == annotation &&
                forall j | i < j < |nodes| :: !nodes[j].Ready? {
          assert init[i] == nodes[i] && forall j | i < j < |init| :: !init[j].Ready?;
        }
      }
    }
  }

  lemma NodeGatherExactly(h: Handler)
    requires h.NodeScan?
    ensures HasHardError(h.nodes, h.strict) <==> ErrorCounts(h)
    ensures forall a :: LastReady(h.nodes).Some? && LastReady(h.nodes).value.annotation == a <==> LastReports(h, a)
  {
    forall a
      ensures LastReady(h.nodes).Some? && LastReady(h.nodes).value.annotation == a <==> LastReports(h, a)
    {
      LastReadyReports(h.nodes, a);
    }
  }

  // The scan can end exactly if something is ready or wrong, and then with this outcome.
  lemma GatherExactly(h: Handler, labelled: Option<nat>)
    ensures Gather(h, labelled).ready || Gather(h, labelled).err <==> CanEnd(h, labelled)
    ensures Gather(h, labelled).err <==> ErrorCounts(h) || SomeLabelled(labelled)
    ensures IsOutcome(h, labelled, Gather(h, labelled).result)
  {
    if h.NodeScan? {
      NodeGatherExactly(h);
      if LastReady(h.nodes).Some? {
        assert LastReports(h, LastReady(h.nodes).value.annotation);
      }
    } else if h.PlatformScan? && h.configMap.Ready? {
      assert LastReports(h, h.configMap.annotation);
    }
  }
}
