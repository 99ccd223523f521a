/** The scan controller as it runs: it works on a cached copy of a scan, changes the copy, and
    writes it back to an API server that refuses stale copies and keeps status and metadata
    apart. Every reconcile, whatever it read, is one step of ScanPhases or no step at all. */
module ScanController {
  import opened Options
  import opened ScanTypes
  import opened GatherResults
  import opened ScanPhases
  import opened ScanSteps

  // What the status subresource stores, and what an ordinary update stores.
  function WithStatus(stored: Scan, copy: Scan): Scan {
    stored.(phase := copy.phase, result := copy.result, remainingRetries := copy.remainingRetries,
            currentIndex := copy.currentIndex)
  }

  function WithMetadata(stored: Scan, copy: Scan): Scan {
    stored.(rescan := copy.rescan, timedOut := copy.timedOut, counted := copy.counted,
            maxRetryOnTimeout := copy.maxRetryOnTimeout)
  }

  // The server while one request is served: available or not, with one scan and its version.
  class ApiServer {
    var scan: Scan
    var version: nat
    var available: bool

    constructor (created: Scan)
      ensures scan == created && version == 0 && available
    {
      scan, version, available := created, 0, true;
    }

    method UpdateStatus(copy: Scan, read: nat) returns (ok: bool)
      modifies `scan, `version
      ensures ok == (available && read == old(version))
      ensures scan == if ok then WithStatus(old(scan), copy) else old(scan)
      ensures version == if ok then old(version) + 1 else old(version)
    {
      ok := available && read == version;
      if ok {
        scan, version := WithStatus(scan, copy), version + 1;
      }
    }

    method Update(copy: Scan, read: nat) returns (ok: bool)
      modifies `scan, `version
      ensures ok == (available && read == old(version))
      ensures scan == if ok then WithMetadata(old(scan), copy) else old(scan)
      ensures version == if ok then old(version) + 1 else old(version)
    {
      ok := available && read == version;
      if ok {
        scan, version := WithMetadata(scan, copy), version + 1;
      }
    }
  }

  // A copy is what the server held at the version it was read at.
  ghost predicate Read(server: ApiServer, copy: Scan, read: nat)
    reads server
  {
    read == server.version ==> copy == server.scan
  }

  // One request leaves the scan as it was, or writes `target` once, over the state it had read.
  twostate predicate Stepped(server: ApiServer, read: nat, target: Scan)
    reads server
  {
    && server.scan == (if server.available && read == old(server.version) then target else old(server.scan))
    && server.version <= old(server.version) + 1
    && (server.scan != old(server.scan) ==> server.version == old(server.version) + 1)
    && server.available == old(server.available)
  }

  // The handler of a scan while its pods run. It holds the copy and may change its phase.
  class ScanTypeHandler {
    const server: ApiServer
    const read: nat
    const pods: seq<Pod>
    var scan: Scan

    constructor (server: ApiServer, read: nat, pods: seq<Pod>, scan: Scan)
      ensures this.server == server && this.read == read && this.pods == pods && this.scan == scan
    {
      this.server, this.read, this.pods, this.scan := server, read, pods, scan;
    }

    // Looks at the pods in the order of the nodes and stops at the first that is not settled.
    method HandleRunningScan() returns (running: bool, timeoutNodes: seq<nat>, err: bool)
      requires Read(server, scan, read)
      modifies this, server`scan, server`version
      ensures WorkloadOf(pods) == WorkloadMissing ==>
                running && timeoutNodes == [] && Stepped(server, read, old(scan).(phase := Launching))
      ensures WorkloadOf(pods) != WorkloadMissing ==> unchanged(this) && unchanged(server)
      ensures WorkloadOf(pods) == WorkloadUnknown ==> err
      ensures WorkloadOf(pods) == WorkloadTimedOut ==>
                !err && exists n | 0 <= n < |pods| :: timeoutNodes == [n] && pods[n] == PodTimedOut
      ensures WorkloadOf(pods) == WorkloadRunning ==> !err && running && timeoutNodes == []
      ensures WorkloadOf(pods) == WorkloadFinished ==> !err && !running && timeoutNodes == []
    {
      timeoutNodes := [];
      for n := 0 to |pods|
        invariant WorkloadOf(pods[n..]) == WorkloadOf(pods)
        invariant timeoutNodes == []
        invariant unchanged(this) && unchanged(server)
      {
        assert pods[n..][0] == pods[n] && pods[n..][1..] == pods[n + 1..];
        match pods[n] {
          case PodMissing =>
            scan := scan.(phase := Launching);
            var ok := server.UpdateStatus(scan, read);
            return true, [], !ok;
          case PodUnschedulable(recorded) =>
            if !recorded {
              return true, [], true;
            }
          case PodTimedOut =>
            timeoutNodes := timeoutNodes + [n];
            return true, timeoutNodes, false;
          case PodUnknown =>
            return true, [], true;
          case PodRunning =>
            return true, [], false;
          case PodSucceeded =>
        }
      }
      return false, [], false;
    }
  }

  method GatherScanResults(h: Handler, labelled: Option<nat>) returns (g: Gathered)
    ensures g == Gather(h, labelled)
  {
    match h {
      case NodeScan(nodes, strict, _) => g := GatherNodeResults(nodes, strict);
      case PlatformScan(cm) =>
        g := Gathered(NoResult, false, false);
        if cm.Ready? {
          g := Gathered(ScanResult(cm.annotation), true, ScanResult(cm.annotation) == Error);
        }
      case CelScan(listed, failing) => g := Gathered(if failing then NonCompliant else Compliant, listed, false);
    }
    if g.err {
      return;
    }
    if labelled.None? {
      g := g.(ready := false);
    } else if labelled.value > 0 {
      g := g.(result := Inconsistent, err := true);
    }
  }

  class ReconcileComplianceScan {
    const server: ApiServer
    // The scan as it was created, and what happened to it since.
    ghost const origin: Scan
    ghost var events: seq<Event>

    ghost predicate Valid()
      reads this, server
    {
      Fresh(origin) && server.scan == Run(origin, events)
    }

    constructor (server: ApiServer)
      requires Fresh(server.scan)
      ensures Valid() && this.server == server && events == []
    {
      this.server := server;
      origin, events := server.scan, [];
    }

    // A user asks for a rescan.
    method RequestRescan()
      requires Valid()
      modifies this, server`scan, server`version
      ensures Valid() && events == old(events) + [UserRescan]
    {
      server.scan, server.version := server.scan.(rescan := true), server.version + 1;
      ghost var before := events;
      events := events + [UserRescan];
      assert events[..|events| - 1] == before;
    }

    // Whatever copy a reconcile works on, it makes the step of the phase machine on what the
    // server holds, or none: none exactly when the copy is stale or the server cannot be reached.
    method Reconcile(instance: Scan, read: nat, o: Observation)
      requires Valid() && Read(server, instance, read)
      modifies this, server`scan, server`version
      ensures Valid() && Stepped(server, read, ScanPhases.Reconcile(old(server.scan), o))
      ensures events == old(events) + if server.available && read == old(server.version) then [Reconciled(o)] else []
      ensures DoneIsFinal(server.scan)
      ensures if server.available && read == old(server.version) then StepsExactly(old(server.scan), o, server.scan)
              else server.scan == old(server.scan)
    {
      ReconcileInstance(instance, read, o);
      ghost var before := events;
      if server.available && read == old(server.version) {
        events := events + [Reconciled(o)];
        assert events[..|events| - 1] == before;
        ReconcileStepsExactly(old(server.scan), o);
      }
      DoneHasFinalResult(origin, events);
    }

    method ReconcileInstance(instance: Scan, read: nat, o: Observation)
      requires Read(server, instance, read)
      modifies server`scan, server`version
      ensures Stepped(server, read, ScanPhases.Reconcile(instance, o))
    {
      var cont := ValidateScan(instance, read, o);
      if cont {
        match instance.phase {
          case NoPhase =>
          case Pending => PhasePendingHandler(instance, read, o);
          case Launching => PhaseLaunchingHandler(instance, read, o);
          case Running => PhaseRunningHandler(instance, read, o);
          case Aggregating => PhaseAggregatingHandler(instance, read, o);
          case Done => PhaseDoneHandler(instance, read, o);
        }
      }
    }

    method ValidateScan(instance: Scan, read: nat, o: Observation) returns (cont: bool)
      requires Read(server, instance, read)
      modifies server`scan, server`version
      ensures cont <==> Validate(instance, o).None?
      ensures cont ==> unchanged(server)
      ensures !cont ==> Stepped(server, read, Validate(instance, o).value)
    {
      var copy := instance;
      if instance.phase == NoPhase {
        if copy.remainingRetries != instance.maxRetryOnTimeout {
          copy := copy.(remainingRetries := instance.maxRetryOnTimeout);
        }
        copy := copy.(phase := Pending);
        var ok := server.UpdateStatus(copy, read);
        return false;
      }
      if o.settings == DefaultsMissing {
        // Writes defaults to the spec, none of which is part of the model.
        var ok := server.Update(copy, read);
        return false;
      }
      if o.settings == InvalidScanType || o.settings == InvalidStorageSize {
        copy := copy.(result := Error, phase := Done);
        var ok := server.UpdateStatus(copy, read);
        return false;
      }
      if !o.nodesListed {
        return false;
      }
      if o.handler.NodeScan? {
        if |o.handler.nodes| == 0 {
          copy := copy.(result := NotApplicable, phase := Done);
          var ok := server.UpdateStatus(copy, read);
          return false;
        }
        if o.handler.strict && o.handler.unschedulableNode {
          return false;
        }
      }
      return o.timeoutParses;
    }

    method PhasePendingHandler(instance: Scan, read: nat, o: Observation)
      requires Read(server, instance, read)
      modifies server`scan, server`version
      ensures Stepped(server, read, PendingStep(instance, o))
    {
      var copy := instance;
      if o.profileLookupFails {
        copy := copy.(phase := Done, result := Error);
        var ok := server.UpdateStatus(copy, read);
        return;
      }
      if instance.rescan {
        copy := copy.(counted := false, rescan := false, timedOut := false);
        var ok := server.Update(copy, read);
        return;
      }
      if instance.timedOut {
        copy := copy.(timedOut := false, counted := false);
        var ok := server.Update(copy, read);
        return;
      }
      copy := copy.(phase := Launching, result := NotAvailable);
      var ok := server.UpdateStatus(copy, read);
    }

    method PhaseLaunchingHandler(instance: Scan, read: nat, o: Observation)
      requires Read(server, instance, read)
      modifies server`scan, server`version
      ensures Stepped(server, read, LaunchingStep(instance, o))
    {
      if o.launch == LaunchFailed {
        return;
      }
      var copy := instance;
      if o.launch == LaunchRefused {
        copy := copy.(result := Error, phase := Done);
      } else {
        copy := copy.(phase := Running);
      }
      var ok := server.UpdateStatus(copy, read);
    }

    method PhaseRunningHandler(instance: Scan, read: nat, o: Observation)
      requires Read(server, instance, read)
      modifies server`scan, server`version
      ensures Stepped(server, read, RunningStep(instance, o))
    {
      var h := new ScanTypeHandler(server, read, o.pods, instance);
      var running, timeoutNodes, err := h.HandleRunningScan();
      if err {
        return;
      }
      if |timeoutNodes| > 0 {
        if h.scan.timedOut {
          UpdateScanStatusOnTimeout(h.scan, read);
        } else {
          SetAnnotationOnTimeout(h.scan, read);
        }
        return;
      }
      if running {
        return;
      }
      h.scan := h.scan.(phase := Aggregating);
      var ok := server.UpdateStatus(h.scan, read);
    }

    method UpdateScanStatusOnTimeout(scan: Scan, read: nat)
      requires Read(server, scan, read)
      modifies server`scan, server`version
      ensures Stepped(server, read, Fail(scan).(
                remainingRetries := if scan.remainingRetries > 0 then scan.remainingRetries - 1
                                    else scan.maxRetryOnTimeout))
    {
      var copy := scan.(phase := Done, result := Error);
      if scan.remainingRetries > 0 {
        copy := copy.(remainingRetries := scan.remainingRetries - 1);
      } else {
        copy := copy.(remainingRetries := scan.maxRetryOnTimeout);
      }
      var ok := server.UpdateStatus(copy, read);
    }

    method SetAnnotationOnTimeout(scan: Scan, read: nat)
      requires Read(server, scan, read)
      modifies server`scan, server`version
      ensures Stepped(server, read, scan.(timedOut := true, rescan := scan.rescan || scan.remainingRetries > 0))
    {
      var copy := scan.(timedOut := true);
      if scan.remainingRetries > 0 {
        copy := copy.(rescan := true);
      }
      var ok := server.Update(copy, read);
    }

    method PhaseAggregatingHandler(instance: Scan, read: nat, o: Observation)
      requires Read(server, instance, read) && instance.phase == Aggregating
      modifies server`scan, server`version
      ensures Stepped(server, read, AggregatingStep(instance, o))
      ensures GoesOn(o) && server.available && read == old(server.version) ==>
                StepsExactly(instance, o, server.scan)
    {
      if GoesOn(o) {
        AggregatingSteps(instance, o);
        ValidatesExactly(instance, o);
      }
      var copy := instance;
      if !o.handler.CelScan? {
        if o.aggregation == ConfigMapsMissing {
          return;
        }
        if o.aggregation == ScanFailed {
          copy := copy.(phase := Done, result := Error);
          var ok := server.UpdateStatus(copy, read);
          return;
        }
        if o.aggregation == AggregatorUnknown {
          return;
        }
        if o.aggregation == AggregatorRunning {
          copy := copy.(phase := Aggregating);
          var ok := server.UpdateStatus(copy, read);
          return;
        }
      }
      var g := GatherScanResults(o.handler, o.labelled);
      if !g.err && !g.ready {
        return;
      }
      // The result is on the copy already when the count is written, but that write is to the
      // metadata and leaves the status alone.
      copy := copy.(result := g.result);
      if o.countFails {
        return;
      }
      if !copy.counted {
        copy := copy.(counted := true);
        var ok := server.Update(copy, read);
        return;
      }
      copy := copy.(phase := Done);
      var ok := server.UpdateStatus(copy, read);
    }

    method PhaseDoneHandler(instance: Scan, read: nat, o: Observation)
      requires Read(server, instance, read)
      modifies server`scan, server`version
      ensures Stepped(server, read, DoneStep(instance, o))
    {
      if o.cleanupFails {
        return;
      }
      if instance.rescan {
        var copy := instance.(phase := Pending, result := NotAvailable);
        if instance.currentIndex == MAX_INT64 {
          copy := copy.(currentIndex := 0);
        } else {
          copy := copy.(currentIndex := instance.currentIndex + 1);
        }
        var ok := server.UpdateStatus(copy, read);
      }
    }
  }
}
