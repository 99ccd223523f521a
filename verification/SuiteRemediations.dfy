/** How a suite applies its remediations: pools are paused before a remediation that would restart
    their nodes is applied, and unpaused when a later look finds everything settled. */
module SuiteRemediations {
  import opened Options
  import opened ApiCalls
  import opened Remediations

  datatype Pool = Pool(paused: bool, version: nat)

  // An entry of the first listing, with its scan: None if that could not be read, and otherwise
  // whether it is done and which of the listed pools it selects, if any.
  datatype Scan = Scan(done: bool, pool: Option<string>)
  datatype Entry = Entry(name: string, stored: Stored, scan: Option<Scan>)

  datatype Suite = Suite(done: bool, autoApply: bool, applyAnnotation: bool, autoUpdate: bool, updateAnnotation: bool) {
    predicate ShouldApplyRemediations() {
      autoApply || applyAnnotation
    }

    predicate ShouldRemoveOutdated() {
      autoUpdate || updateAnnotation
    }
  }

  // A reconcile has nothing to do, fails, has to wait for remediations, or completes.
  datatype Outcome = NothingToDo | Failed | NotAppliedYet | Completed

  // An entry gets a decision when its scan is done; for a MachineConfig or a KubeletConfig, which
  // restart nodes, only if a pool is affected.
  predicate Due(e: Entry) {
    && e.scan.Some? && e.scan.value.done
    && (e.stored.rem.current.Some? &&
        (e.stored.rem.current.value.kind.MachineConfig? || e.stored.rem.current.value.kind.KubeletConfig?) ==>
          e.scan.value.pool.Some?)
  }

  // The pool to be paused for an entry.
  function Affected(e: Entry): Option<string> {
    if e.scan.Some? && e.scan.value.done && e.stored.rem.current.Some? &&
       (e.stored.rem.current.value.kind.MachineConfig? || e.stored.rem.current.value.kind.KubeletConfig?)
    then e.scan.value.pool
    else None
  }

  // The pool that the scan of an entry selects, whether it matters or not.
  function Selected(e: Entry): Option<string> {
    if e.scan.Some? then e.scan.value.pool else None
  }

  // A remediation with its decision: outdated content is dropped if the suite asks for that.
  function WithDecision(suite: Suite, rem: Remediation): Remediation {
    rem.(apply := true,
         outdated := if (suite.autoUpdate || suite.updateAnnotation) && rem.state == Outdated then None
                     else rem.outdated)
  }

  // An entry with its decision, as it is written.
  function Decision(e: Entry, suite: Suite): Stored {
    Stored(WithDecision(suite, e.stored.rem), e.stored.version + 1)
  }

  // Applied, be it outdated or waiting for dependencies, or in need of review.
  predicate Settled(rem: Remediation) {
    || rem.state == Applied || rem.state == NeedsReview
    || (rem.apply && (rem.state == Outdated || rem.state == MissingDependencies))
  }

  predicate AllSettled(rems: seq<Remediation>) {
    forall r | r in rems :: Settled(r)
  }

  /******* What happened, in order *******/

  datatype Event = PoolPaused(pool: string) | PoolUnpaused(pool: string)
                 | Decided(name: string, rem: Remediation, selected: Option<string>)
                 | Checked(rems: seq<Remediation>)
                 | Toggled(pool: string, paused: bool)

  function PausedPools(start: set<string>, trace: seq<Event>): set<string> {
    if trace == [] then start
    else
      var before := PausedPools(start, trace[..|trace| - 1]);
      match trace[|trace| - 1]
      case PoolPaused(pool) => before + {pool}
      case PoolUnpaused(pool) => before - {pool}
      case Toggled(pool, paused) => if paused then before + {pool} else before - {pool}
      case _ => before
  }

  // The last look found everything settled, and nothing was decided since.
  predicate CheckStands(trace: seq<Event>) {
    trace != [] &&
    match trace[|trace| - 1]
    case Checked(rems) => AllSettled(rems)
    case Decided(_, _, _) => false
    case _ => CheckStands(trace[..|trace| - 1])
  }

  // Every decision on a MachineConfig or a KubeletConfig is taken while the pool that its scan selects
  // is paused.
  ghost predicate DecidedWhilePaused(start: set<string>, trace: seq<Event>) {
    forall i | 0 <= i < |trace| && trace[i].Decided? && trace[i].rem.current.Some? &&
               (trace[i].rem.current.value.kind.MachineConfig? || trace[i].rem.current.value.kind.KubeletConfig?) ::
      trace[i].selected.Some? && trace[i].selected.value in PausedPools(start, trace[..i])
  }

  // One that is not: nodes restart at once.
  predicate RestartsUnpaused(e: Event, paused: set<string>) {
    && e.Decided? && e.rem.current.Some?
    && (e.rem.current.value.kind.MachineConfig? || e.rem.current.value.kind.KubeletConfig?)
    && !(e.selected.Some? && e.selected.value in paused)
  }

  // The remediations after the decisions.
  function DecidedRems(start: map<string, Stored>, trace: seq<Event>): map<string, Stored> {
    if trace == [] then start
    else
      var before := DecidedRems(start, trace[..|trace| - 1]);
      match trace[|trace| - 1]
      case Decided(name, rem, _) =>
        if name in before then before[name := Stored(rem, before[name].version + 1)] else before
      case _ => before
  }

  ghost predicate UnpausedWhenSettled(trace: seq<Event>) {
    forall i | 0 <= i < |trace| && trace[i].PoolUnpaused? :: CheckStands(trace[..i])
  }

  // How many decisions restart nodes at once.
  function UnpausedDecisions(start: set<string>, trace: seq<Event>): nat {
    if trace == [] then 0
    else
      var init, e := trace[..|trace| - 1], trace[|trace| - 1];
      UnpausedDecisions(start, init) + if RestartsUnpaused(e, PausedPools(start, init)) then 1 else 0
  }

  lemma {:induction false} NoneUnpausedMeans(start: set<string>, trace: seq<Event>)
    ensures UnpausedDecisions(start, trace) == 0 <==> DecidedWhilePaused(start, trace)
  {
    if trace == [] {
    } else {
      var init, e := trace[..|trace| - 1], trace[|trace| - 1];
      NoneUnpausedMeans(start, init);
      DecidedWhilePausedNext(start, init, e);
      assert trace == init + [e];
    }
  }

  lemma DecidedWhilePausedNext(start: set<string>, trace: seq<Event>, e: Event)
    ensures DecidedWhilePaused(start, trace + [e]) <==>
            DecidedWhilePaused(start, trace) && !RestartsUnpaused(e, PausedPools(start, trace))
  {
    var after := trace + [e];
    assert forall i | 0 <= i < |trace| :: after[i] == trace[i] && after[..i] == trace[..i];
    assert after[|trace|] == e && after[..|trace|] == trace;
    if DecidedWhilePaused(start, after) {
      forall i | 0 <= i < |trace| && trace[i].Decided? && trace[i].rem.current.Some? &&
                 (trace[i].rem.current.value.kind.MachineConfig? || trace[i].rem.current.value.kind.KubeletConfig?)
        ensures trace[i].selected.Some? && trace[i].selected.value in PausedPools(start, trace[..i])
      {
        assert after[i] == trace[i];
      }
    }
  }

  lemma {:induction false} TraceStep(start: set<string>, rems: map<string, Stored>, trace: seq<Event>, e: Event)
    requires UnpausedWhenSettled(trace) && (e.PoolUnpaused? ==> CheckStands(trace))
    ensures UnpausedWhenSettled(trace + [e])
    ensures PausedPools(start, trace + [e]) ==
            match e
            case PoolPaused(pool) => PausedPools(start, trace) + {pool}
            case PoolUnpaused(pool) => PausedPools(start, trace) - {pool}
            case Toggled(pool, paused) =>
              if paused then PausedPools(start, trace) + {pool} else PausedPools(start, trace) - {pool}
            case _ => PausedPools(start, trace)
    ensures CheckStands(trace + [e]) ==
            match e
            case Checked(rems) => AllSettled(rems)
            case Decided(_, _, _) => false
            case _ => CheckStands(trace)
    ensures UnpausedDecisions(start, trace + [e]) ==
            UnpausedDecisions(start, trace) + if RestartsUnpaused(e, PausedPools(start, trace)) then 1 else 0
    ensures !e.Decided? ==> DecidedRems(rems, trace + [e]) == DecidedRems(rems, trace)
    ensures e.Decided? && e.name in DecidedRems(rems, trace) ==>
              var before := DecidedRems(rems, trace);
              DecidedRems(rems, trace + [e]) == before[e.name := Stored(e.rem, before[e.name].version + 1)]
  {
    var after := trace + [e];
    assert after[..|trace|] == trace;
    assert forall i | 0 <= i < |trace| :: after[..i] == trace[..i];
  }

  lemma {:induction false} CheckStandsMeans(trace: seq<Event>, i: nat)
    requires CheckStands(trace) && i < |trace| && trace[i].Decided?
    ensures exists k | i < k < |trace| :: trace[k].Checked? && AllSettled(trace[k].rems)
  {
    var init := trace[..|trace| - 1];
    if !trace[|trace| - 1].Checked? {
      CheckStandsMeans(init, i);
      var k :| i < k < |init| && init[k].Checked? && AllSettled(init[k].rems);
      assert trace[k] == init[k];
    }
  }

  // Between a decision and an unpausing that comes after it, everything was seen to be settled.
  lemma SettledBeforeUnpaused(trace: seq<Event>, i: nat, j: nat)
    requires UnpausedWhenSettled(trace) && i < j < |trace| && trace[i].Decided? && trace[j].PoolUnpaused?
    ensures exists k | i < k < j :: trace[k].Checked? && AllSettled(trace[k].rems)
  {
    CheckStandsMeans(trace[..j], i);
    var k :| i < k < j && trace[..j][k].Checked? && AllSettled(trace[..j][k].rems);
    assert trace[k].Checked? && AllSettled(trace[k].rems);
  }

  function PausedOf(pools: map<string, Pool>): set<string> {
    set p | p in pools && pools[p].paused
  }

  lemma PausedOfUpdate(pools: map<string, Pool>, name: string, pool: Pool)
    ensures PausedOf(pools[name := pool]) == if pool.paused then PausedOf(pools) + {name} else PausedOf(pools) - {name}
  {
  }

  /******* The controller *******/

  predicate IsPaused(pools: map<string, Pool>, name: string) {
    name in pools && pools[name].paused
  }

  // A copy of a pool, of whatever age: of the stored version, it is what is stored.
  predicate PoolCopy(name: string, copy: Pool, pools: map<string, Pool>) {
    name in pools && copy.version == pools[name].version ==> copy == pools[name]
  }

  // The copy shows a pause that is over.
  predicate FalsePause(name: string, copy: Pool, pools: map<string, Pool>) {
    copy.paused && !IsPaused(pools, name)
  }

  predicate RemediationCopy(e: Entry, rems: map<string, Stored>) {
    IsCopy(e.name, e.stored, rems)
  }

  predicate PoolCopies(copies: map<string, Pool>, pools: map<string, Pool>) {
    forall p | p in copies :: PoolCopy(p, copies[p], pools)
  }

  predicate RemediationCopies(entries: seq<Entry>, rems: map<string, Stored>) {
    forall e | e in entries :: RemediationCopy(e, rems)
  }

  predicate DistinctEntries(entries: seq<Entry>) {
    forall i, j | 0 <= i < j < |entries| :: entries[i].name != entries[j].name
  }

  predicate PoolsListed(entries: seq<Entry>, listed: map<string, Pool>) {
    forall e | e in entries && Affected(e).Some? :: Affected(e).value in listed
  }

  predicate AllAffected(entries: seq<Entry>, affected: map<string, Pool>) {
    forall e | e in entries && Affected(e).Some? :: Affected(e).value in affected
  }

  // Exactly the entries that are due have their decision, and the rest is as before.
  ghost predicate AllDecided(entries: seq<Entry>, suite: Suite, rems: map<string, Stored>,
                             before: map<string, Stored>)
  {
    && rems.Keys == before.Keys
    && (forall e | e in entries && Due(e) :: e.name in rems && rems[e.name] == Decision(e, suite))
    && (forall name | name in rems && (forall e | e in entries && Due(e) :: e.name != name) ::
          rems[name] == before[name])
  }

  // A copy needs no write, or its write is not refused.
  predicate PoolUsable(name: string, copy: Pool, pools: map<string, Pool>) {
    copy.paused || (name in pools && copy == pools[name])
  }

  predicate PoolsUsable(listed: map<string, Pool>, pools: map<string, Pool>) {
    forall p | p in listed :: PoolUsable(p, listed[p], pools)
  }

  predicate EntryFresh(e: Entry, rems: map<string, Stored>) {
    e.name in rems && e.stored == rems[e.name] && e.scan.Some?
  }

  predicate EntriesFresh(entries: seq<Entry>, rems: map<string, Stored>) {
    forall e | e in entries :: EntryFresh(e, rems)
  }

  predicate AllUsable(entries: seq<Entry>, listed: map<string, Pool>, pools: map<string, Pool>,
                      rems: map<string, Stored>)
  {
    PoolsUsable(listed, pools) && EntriesFresh(entries, rems)
  }

  // The first part of a reconcile on its way: `known` are the pools it has worked with, as it knows
  // them. All are believed to be paused, and are exactly unless the listing showed a pause that was over.
  ghost predicate Worked(listed: map<string, Pool>, known: map<string, Pool>, pools: map<string, Pool>,
                         before: map<string, Pool>)
  {
    && pools.Keys == before.Keys && known.Keys <= listed.Keys
    && (forall p | p in pools && p !in known :: pools[p] == before[p])
    && (forall p | p in known ::
          && known[p].paused && PoolCopy(p, known[p], pools)
          && (IsPaused(pools, p) <==> !FalsePause(p, listed[p], before)))
  }

  // An entry is applied on the strength of a pause that is over.
  predicate Misled(e: Entry, listed: map<string, Pool>, pools: map<string, Pool>) {
    && e.scan.Some? && e.scan.value.done && e.scan.value.pool.Some?
    && e.stored.rem.current.Some?
    && (e.stored.rem.current.value.kind.MachineConfig? || e.stored.rem.current.value.kind.KubeletConfig?)
    && var p := e.scan.value.pool.value;
       p in listed && listed[p].paused && !(p in pools && pools[p].paused)
  }

  // What a decision is on, and whether its pool was paused.
  ghost predicate DecisionOn(start: set<string>, trace: seq<Event>, i: nat, e: Entry, suite: Suite, misled: bool)
    requires i < |trace|
  {
    && trace[i] == Decided(e.name, WithDecision(suite, e.stored.rem), Selected(e))
    && (RestartsUnpaused(trace[i], PausedPools(start, trace[..i])) <==> misled)
  }

  // All decisions since `before` are on this entry.
  ghost predicate DecisionsOn(start: set<string>, before: seq<Event>, trace: seq<Event>, e: Entry, suite: Suite,
                              misled: bool)
  {
    && before <= trace
    && forall i | |before| <= i < |trace| && trace[i].Decided? :: DecisionOn(start, trace, i, e, suite, misled)
  }

  // All decisions since `before` are on these entries, each with its pool paused exactly unless the
  // entry was misled.
  ghost predicate DecisionsOnAll(start: set<string>, before: seq<Event>, trace: seq<Event>, entries: seq<Entry>,
                                 suite: Suite, listed: map<string, Pool>, pools: map<string, Pool>)
  {
    && before <= trace
    && forall i | |before| <= i < |trace| && trace[i].Decided? ::
         exists e | e in entries :: DecisionOn(start, trace, i, e, suite, Misled(e, listed, pools))
  }

  ghost predicate NothingDecided(before: seq<Event>, trace: seq<Event>) {
    before <= trace && forall i | |before| <= i < |trace| :: !trace[i].Decided?
  }

  // A decision after nothing but pauses.
  lemma DecisionAfter(start: set<string>, before: seq<Event>, paused: seq<Event>, trace: seq<Event>, e: Entry,
                      suite: Suite, pools: map<string, Pool>)
    requires NothingDecided(before, paused) && PausedPools(start, paused) == PausedOf(pools)
    requires trace == paused || trace == paused + [Decided(e.name, WithDecision(suite, e.stored.rem), Selected(e))]
    ensures DecisionsOn(start, before, trace, e, suite,
                        RestartsUnpaused(Decided(e.name, e.stored.rem, Selected(e)), PausedOf(pools)))
    ensures trace == paused ==> NothingDecided(before, trace)
  {
    assert trace[..|paused|] == paused;
  }

  lemma DecisionsStay(start: set<string>, before: seq<Event>, mid: seq<Event>, trace: seq<Event>, entries: seq<Entry>,
                      suite: Suite, listed: map<string, Pool>, pools: map<string, Pool>)
    requires DecisionsOnAll(start, before, mid, entries, suite, listed, pools) && NothingDecided(mid, trace)
    ensures DecisionsOnAll(start, before, trace, entries, suite, listed, pools)
  {
    forall i | |before| <= i < |trace| && trace[i].Decided?
      ensures exists e | e in entries :: DecisionOn(start, trace, i, e, suite, Misled(e, listed, pools))
    {
      assert i < |mid| && mid[i] == trace[i] && mid[..i] == trace[..i];
      var e :| e in entries && DecisionOn(start, mid, i, e, suite, Misled(e, listed, pools));
      assert DecisionOn(start, trace, i, e, suite, Misled(e, listed, pools));
    }
  }

  lemma DecisionsGrow(start: set<string>, before: seq<Event>, mid: seq<Event>, trace: seq<Event>, entries: seq<Entry>,
                      k: nat, suite: Suite, listed: map<string, Pool>, pools: map<string, Pool>)
    requires k < |entries| && DecisionsOnAll(start, before, mid, entries[..k], suite, listed, pools)
    requires DecisionsOn(start, mid, trace, entries[k], suite, Misled(entries[k], listed, pools))
    ensures DecisionsOnAll(start, before, trace, entries[..k + 1], suite, listed, pools)
  {
    assert entries[..k + 1] == entries[..k] + [entries[k]];
    forall i | |before| <= i < |trace| && trace[i].Decided?
      ensures exists e | e in entries[..k + 1] :: DecisionOn(start, trace, i, e, suite, Misled(e, listed, pools))
    {
      if i < |mid| {
        assert mid[i] == trace[i] && mid[..i] == trace[..i];
        var e :| e in entries[..k] && DecisionOn(start, mid, i, e, suite, Misled(e, listed, pools));
        assert DecisionOn(start, trace, i, e, suite, Misled(e, listed, pools));
      } else {
        assert DecisionOn(start, trace, i, entries[k], suite, Misled(entries[k], listed, pools));
      }
    }
  }

  function MisledCount(entries: seq<Entry>, listed: map<string, Pool>, pools: map<string, Pool>): nat {
    if entries == [] then 0
    else
      var init, last := entries[..|entries| - 1], entries[|entries| - 1];
      MisledCount(init, listed, pools) + if Misled(last, listed, pools) then 1 else 0
  }

  lemma {:induction false} NoneMisledMeans(entries: seq<Entry>, listed: map<string, Pool>, pools: map<string, Pool>)
    ensures MisledCount(entries, listed, pools) == 0 <==> forall e | e in entries :: !Misled(e, listed, pools)
  {
    if entries == [] {
    } else {
      var init, last := entries[..|entries| - 1], entries[|entries| - 1];
      assert entries == init + [last];
      NoneMisledMeans(init, listed, pools);
    }
  }

  lemma {:induction false} MisledCountGrows(entries: seq<Entry>, i: nat, listed: map<string, Pool>,
                                            pools: map<string, Pool>)
    requires i <= |entries|
    ensures MisledCount(entries[..i], listed, pools) <= MisledCount(entries, listed, pools)
  {
    if i == |entries| {
      assert entries[..i] == entries;
    } else {
      var init := entries[..|entries| - 1];
      assert init[..i] == entries[..i];
      MisledCountGrows(init, i, listed, pools);
    }
  }

  lemma WorkedNext(listed: map<string, Pool>, known: map<string, Pool>, pools: map<string, Pool>,
                   before: map<string, Pool>, name: string, pool: Pool, after: map<string, Pool>)
    requires Worked(listed, known, pools, before) && name in listed
    requires after.Keys == pools.Keys && forall p | p in after && p != name :: after[p] == pools[p]
    requires pool.paused && PoolCopy(name, pool, after)
    requires IsPaused(after, name) <==> !FalsePause(name, listed[name], before)
    ensures Worked(listed, known[name := pool], after, before)
  {
  }

  lemma CopyToUse(listed: map<string, Pool>, known: map<string, Pool>, pools: map<string, Pool>,
                  before: map<string, Pool>, name: string)
    requires PoolCopies(listed, before) && Worked(listed, known, pools, before) && name in listed
    ensures var copy := if name in known then known[name] else listed[name];
            && PoolCopy(name, copy, pools)
            && (FalsePause(name, copy, pools) <==> FalsePause(name, listed[name], before))
            && (PoolsUsable(listed, before) ==> PoolUsable(name, copy, pools))
  {
    assert PoolCopy(name, listed[name], before);
    if name !in known {
      assert (name in pools <==> name in before) && (name in pools ==> pools[name] == before[name]);
    }
  }

  // What is left of the pools: unpaused if the reconcile completed, and otherwise paused exactly
  // unless the listing showed a pause that was over.
  ghost predicate PoolsLeft(entries: seq<Entry>, listed: map<string, Pool>, before: map<string, Pool>,
                            pools: map<string, Pool>, completed: bool)
  {
    forall e | e in entries && Affected(e).Some? ::
      var p := Affected(e).value;
      if completed then p in pools && !pools[p].paused else IsPaused(pools, p) <==> !Misled(e, listed, before)
  }

  lemma DecidedNext(entries: seq<Entry>, i: nat, suite: Suite, rems: map<string, Stored>, after: map<string, Stored>,
                    before: map<string, Stored>)
    requires i < |entries| && DistinctEntries(entries) && AllDecided(entries[..i], suite, rems, before)
    requires Due(entries[i]) ==> entries[i].name in rems
    requires after == if !Due(entries[i]) then rems
                      else rems[entries[i].name := Decision(entries[i], suite)]
    ensures AllDecided(entries[..i + 1], suite, after, before)
  {
    assert entries[..i + 1] == entries[..i] + [entries[i]];
    assert forall e | e in entries[..i] :: e.name != entries[i].name;
    forall name | name in after && (forall e | e in entries[..i + 1] && Due(e) :: e.name != name)
      ensures after[name] == before[name]
    {
      assert forall e | e in entries[..i] && Due(e) :: e in entries[..i + 1];
      assert entries[i] in entries[..i + 1];
    }
  }

  // A decision on one entry leaves what is known of the others.
  lemma OthersKept(entries: seq<Entry>, i: nat, suite: Suite, before: map<string, Stored>, after: map<string, Stored>)
    requires i < |entries| && DistinctEntries(entries) && RemediationCopies(entries[i..], before)
    requires after == if !Due(entries[i]) then before
                      else before[entries[i].name := Decision(entries[i], suite)]
    ensures RemediationCopies(entries[i + 1..], after)
    ensures EntriesFresh(entries[i..], before) ==> EntriesFresh(entries[i + 1..], after)
  {
    assert entries[i..] == [entries[i]] + entries[i + 1..];
    forall e | e in entries[i + 1..]
      ensures RemediationCopy(e, after)
    {
      assert e in entries[i..] && RemediationCopy(e, before);
    }
    if EntriesFresh(entries[i..], before) {
      forall e | e in entries[i + 1..]
        ensures EntryFresh(e, after)
      {
        assert e in entries[i..] && EntryFresh(e, before);
      }
    }
  }

  // How far the first part has got with the remediations.
  ghost predicate Progress(entries: seq<Entry>, i: nat, suite: Suite, affected: map<string, Pool>,
                           rems: map<string, Stored>, before: map<string, Stored>)
  {
    && i <= |entries|
    && AllAffected(entries[..i], affected) && AllDecided(entries[..i], suite, rems, before)
    && RemediationCopies(entries[i..], rems)
    && (EntriesFresh(entries, before) ==> EntriesFresh(entries[i..], rems))
  }

  ghost predicate Underway(entries: seq<Entry>, i: nat, suite: Suite, listed: map<string, Pool>,
                           affected: map<string, Pool>, pools: map<string, Pool>, pools0: map<string, Pool>,
                           rems: map<string, Stored>, rems0: map<string, Stored>)
  {
    Worked(listed, affected, pools, pools0) && Progress(entries, i, suite, affected, rems, rems0)
  }

  lemma ProgressNext(entries: seq<Entry>, i: nat, suite: Suite, affected: map<string, Pool>, next: map<string, Pool>,
                     rems: map<string, Stored>, after: map<string, Stored>, before: map<string, Stored>)
    requires Progress(entries, i, suite, affected, rems, before) && i < |entries| && DistinctEntries(entries)
    requires next.Keys == affected.Keys + if Affected(entries[i]).Some? then {Affected(entries[i]).value} else {}
    requires Due(entries[i]) ==> entries[i].name in rems
    requires after == if !Due(entries[i]) then rems
                      else rems[entries[i].name := Decision(entries[i], suite)]
    ensures Progress(entries, i + 1, suite, next, after, before)
  {
    assert entries[..i + 1] == entries[..i] + [entries[i]];
    OthersKept(entries, i, suite, rems, after);
    DecidedNext(entries, i, suite, rems, after, before);
  }

  lemma MisledNext(entries: seq<Entry>, i: nat, listed: map<string, Pool>, pools: map<string, Pool>)
    requires i < |entries|
    ensures MisledCount(entries[..i + 1], listed, pools) ==
            MisledCount(entries[..i], listed, pools) + if Misled(entries[i], listed, pools) then 1 else 0
    ensures MisledCount(entries[..i], listed, pools) <= MisledCount(entries, listed, pools)
  {
    assert entries[..i + 1][..i] == entries[..i];
    MisledCountGrows(entries, i, listed, pools);
  }

  class ReconcileComplianceSuite {
    var pools: map<string, Pool>
    var rems: map<string, Stored>
    // Every call to the API is an attempt; those whose number is in `failing` fail.
    const failing: set<nat>
    var attempts: nat
    // The pools that were paused and the remediations at first, and what happened since.
    ghost const start: set<string>
    ghost const origin: map<string, Stored>
    ghost var trace: seq<Event>
    ghost var unpaused: nat

    ghost predicate Valid()
      reads this
    {
      && UnpausedWhenSettled(trace) && PausedOf(pools) == PausedPools(start, trace)
      && unpaused == UnpausedDecisions(start, trace) && rems == DecidedRems(origin, trace)
    }

    constructor (pools: map<string, Pool>, rems: map<string, Stored>, failing: set<nat>)
      ensures Valid() && this.pools == pools && this.rems == rems && this.failing == failing
      ensures attempts == 0 && trace == [] && unpaused == 0
    {
      this.pools, this.rems, this.failing, attempts := pools, rems, failing, 0;
      start, origin, trace, unpaused := PausedOf(pools), rems, [], 0;
    }

    method Attempt() returns (ok: bool)
      modifies `attempts
      ensures attempts == old(attempts) + 1 && ok == Clean(failing, old(attempts), attempts)
    {
      ok := attempts !in failing;
      attempts := attempts + 1;
    }

    // An administrator pauses or unpauses a pool between reconciles.
    method TogglePool(pool: string, paused: bool)
      requires Valid() && pool in pools
      modifies `pools, `trace
      ensures Valid() && pools == old(pools)[pool := Pool(paused, old(pools)[pool].version + 1)]
    {
      TraceStep(start, origin, trace, Toggled(pool, paused));
      PausedOfUpdate(pools, pool, Pool(paused, pools[pool].version + 1));
      pools := pools[pool := Pool(paused, pools[pool].version + 1)];
      trace := trace + [Toggled(pool, paused)];
    }

    // Writes a copy of a pool; refused when the copy is stale.
    method UpdatePool(name: string, copy: Pool) returns (ok: bool, updated: Pool)
      requires Valid() && (!copy.paused ==> CheckStands(trace))
      requires name in pools && copy.version == pools[name].version ==> copy.paused != pools[name].paused
      modifies `pools, `trace, `attempts
      ensures Valid() && pools.Keys == old(pools).Keys && (CheckStands(old(trace)) ==> CheckStands(trace))
      ensures attempts == old(attempts) + 1
      ensures ok <==>
              Clean(failing, old(attempts), attempts) && name in old(pools) && old(pools)[name].version == copy.version
      ensures ok ==> updated == Pool(copy.paused, copy.version + 1) && pools == old(pools)[name := updated]
      ensures !ok ==> pools == old(pools)
      ensures trace == old(trace) + if !ok then [] else if copy.paused then [PoolPaused(name)] else [PoolUnpaused(name)]
    {
      updated := copy;
      ok := Attempt();
      ok := ok && name in pools && pools[name].version == copy.version;
      if ok {
        ghost var e := if copy.paused then PoolPaused(name) else PoolUnpaused(name);
        TraceStep(start, origin, trace, e);
        updated := copy.(version := copy.version + 1);
        PausedOfUpdate(pools, name, updated);
        pools := pools[name := updated];
        trace := trace + [e];
      }
    }

    // Writes a copy of a remediation, whose state is the stored one: a write of the spec keeps it.
    method UpdateRemediation(name: string, copy: Remediation, version: nat, ghost selected: Option<string>)
      returns (ok: bool)
      requires Valid() && (name in rems && rems[name].version == version ==> copy.state == rems[name].rem.state)
      modifies `rems, `trace, `attempts, `unpaused
      ensures Valid() && attempts == old(attempts) + 1
      ensures ok <==> Clean(failing, old(attempts), attempts) && name in old(rems) && old(rems)[name].version == version
      ensures rems == if ok then old(rems)[name := Stored(copy, version + 1)] else old(rems)
      ensures trace == old(trace) + if ok then [Decided(name, copy, selected)] else []
      ensures unpaused == old(unpaused) +
              if ok && RestartsUnpaused(Decided(name, copy, selected), PausedOf(pools)) then 1 else 0
    {
      ok := Attempt();
      ok := ok && name in rems && rems[name].version == version;
      if ok {
        TraceStep(start, origin, trace, Decided(name, copy, selected));
        rems := rems[name := Stored(copy, version + 1)];
        trace := trace + [Decided(name, copy, selected)];
        unpaused := UnpausedDecisions(start, trace);
      }
    }

    method ApplyGenericRemediation(e: Entry, suite: Suite) returns (ok: bool)
      requires Valid() && RemediationCopy(e, rems) && e.scan.Some?
      modifies `rems, `trace, `attempts, `unpaused
      ensures Valid() && attempts == old(attempts) + 1
      ensures ok <==> Clean(failing, old(attempts), attempts) && EntryFresh(e, old(rems))
      ensures rems == if ok then old(rems)[e.name := Decision(e, suite)]
                      else old(rems)
      ensures trace == old(trace) +
              if ok then [Decided(e.name, WithDecision(suite, e.stored.rem), Selected(e))] else []
      ensures unpaused == old(unpaused) +
              if ok && RestartsUnpaused(Decided(e.name, e.stored.rem, Selected(e)), PausedOf(pools)) then 1 else 0
    {
      ok := Decide(e, suite);
    }

    // The copy of an entry with its decision, written back.
    method Decide(e: Entry, suite: Suite) returns (ok: bool)
      requires Valid() && RemediationCopy(e, rems) && e.scan.Some?
      modifies `rems, `trace, `attempts, `unpaused
      ensures Valid() && attempts == old(attempts) + 1
      ensures ok <==> Clean(failing, old(attempts), attempts) && EntryFresh(e, old(rems))
      ensures rems == if ok then old(rems)[e.name := Decision(e, suite)]
                      else old(rems)
      ensures trace == old(trace) +
              if ok then [Decided(e.name, WithDecision(suite, e.stored.rem), Selected(e))] else []
      ensures unpaused == old(unpaused) +
              if ok && RestartsUnpaused(Decided(e.name, e.stored.rem, Selected(e)), PausedOf(pools)) then 1 else 0
    {
      var copy := CopyWithDecision(e.stored.rem, suite);
      ok := UpdateRemediation(e.name, copy, e.stored.version, Selected(e));
    }

    method CopyWithDecision(rem: Remediation, suite: Suite) returns (copy: Remediation)
      ensures copy == WithDecision(suite, rem)
    {
      copy := rem.(apply := true);
      if suite.ShouldRemoveOutdated() && copy.state == Outdated {
        copy := copy.(outdated := None);
      }
    }

    // `copy` is the selected pool as this reconcile knows it. The decision is recorded with the pool
    // paused exactly unless the copy shows a pause that is over.
    method ApplyMcfgRemediationAndPausePool(e: Entry, suite: Suite, name: string, copy: Pool)
      returns (ok: bool, pool: Pool)
      requires Valid() && RemediationCopy(e, rems) && PoolCopy(name, copy, pools) && Selected(e) == Some(name)
      modifies `pools, `rems, `trace, `attempts, `unpaused
      ensures Valid() && old(attempts) <= attempts && pools.Keys == old(pools).Keys
      ensures ok <==>
              && Clean(failing, old(attempts), attempts)
              && PoolUsable(name, copy, old(pools)) && EntryFresh(e, old(rems))
      ensures rems == if ok then old(rems)[e.name := Decision(e, suite)]
                      else old(rems)
      ensures ok ==> pool.paused && PoolCopy(name, pool, pools)
      ensures ok ==> (IsPaused(pools, name) <==> !FalsePause(name, copy, old(pools)))
      ensures unpaused == old(unpaused) +
              if ok && RestartsUnpaused(Decided(e.name, e.stored.rem, Some(name)), PausedOf(pools)) then 1 else 0
      ensures DecisionsOn(start, old(trace), trace, e, suite,
                          RestartsUnpaused(Decided(e.name, e.stored.rem, Some(name)), PausedOf(pools)))
      ensures !ok ==> NothingDecided(old(trace), trace)
      ensures forall p | p in pools && p != name :: pools[p] == old(pools)[p]
    {
      pool := copy;
      ghost var trace0 := trace;
      if !pool.paused {
        ok, pool := UpdatePool(name, pool.(paused := true));
        if !ok {
          return;
        }
      }
      ghost var paused := trace;
      ok := Decide(e, suite);
      DecisionAfter(start, trace0, paused, trace, e, suite, pools);
    }

    // `known` are the pools this reconcile has worked with, as it left them.
    method ApplyRemediation(e: Entry, suite: Suite, listed: map<string, Pool>, known: map<string, Pool>,
                            ghost before: map<string, Pool>)
      returns (ok: bool, affected: map<string, Pool>)
      requires Valid() && RemediationCopy(e, rems) && (Affected(e).Some? ==> Affected(e).value in listed)
      requires PoolCopies(listed, before) && Worked(listed, known, pools, before)
      modifies `pools, `rems, `trace, `attempts, `unpaused
      ensures Valid() && old(attempts) <= attempts
      ensures ok ==> Clean(failing, old(attempts), attempts) && Worked(listed, affected, pools, before)
      ensures ok ==> affected.Keys == known.Keys + if Affected(e).Some? then {Affected(e).value} else {}
      ensures rems == if ok && Due(e) then old(rems)[e.name := Decision(e, suite)]
                      else old(rems)
      ensures ok && Due(e) ==> e.name in old(rems)
      ensures DecisionsOn(start, old(trace), trace, e, suite, Misled(e, listed, before))
      ensures unpaused == old(unpaused) + if ok && Misled(e, listed, before) then 1 else 0
      ensures Clean(failing, old(attempts), attempts) && PoolsUsable(listed, before) && EntryFresh(e, old(rems)) ==> ok
    {
      affected := known;
      if e.scan.None? {
        return false, affected;
      }
      if !e.scan.value.done {
        return true, affected;
      }
      var current := e.stored.rem.current;
      if current.Some? && (current.value.kind.MachineConfig? || current.value.kind.KubeletConfig?) {
        ok := true;
        if e.scan.value.pool.Some? {
          ok, affected := ApplyToPool(e, suite, e.scan.value.pool.value, listed, known, before);
        }
        return;
      }
      ghost var earlier := trace;
      ok := ApplyGenericRemediation(e, suite);
      DecisionAfter(start, earlier, earlier, trace, e, suite, pools);
    }

    // A pool is taken from the listing the first time, and as it was left the next.
    method ApplyToPool(e: Entry, suite: Suite, name: string, listed: map<string, Pool>, known: map<string, Pool>,
                       ghost before: map<string, Pool>)
      returns (ok: bool, affected: map<string, Pool>)
      requires Valid() && RemediationCopy(e, rems) && Affected(e) == Some(name) && name in listed
      requires PoolCopies(listed, before) && Worked(listed, known, pools, before)
      modifies `pools, `rems, `trace, `attempts, `unpaused
      ensures Valid() && old(attempts) <= attempts
      ensures ok ==> Clean(failing, old(attempts), attempts) && Worked(listed, affected, pools, before)
      ensures ok ==> affected.Keys == known.Keys + {name} && e.name in old(rems)
      ensures rems == if ok then old(rems)[e.name := Decision(e, suite)]
                      else old(rems)
      ensures DecisionsOn(start, old(trace), trace, e, suite, Misled(e, listed, before))
      ensures unpaused == old(unpaused) + if ok && Misled(e, listed, before) then 1 else 0
      ensures Clean(failing, old(attempts), attempts) && PoolsUsable(listed, before) && EntryFresh(e, old(rems)) ==> ok
    {
      var copy := if name in known then known[name] else listed[name];
      CopyToUse(listed, known, pools, before, name);
      var pool;
      ok, pool := ApplyMcfgRemediationAndPausePool(e, suite, name, copy);
      affected := known[name := pool];
      if ok {
        WorkedNext(listed, known, old(pools), before, name, pool, pools);
        assert RestartsUnpaused(Decided(e.name, e.stored.rem, Some(name)), PausedOf(pools)) <==>
               Misled(e, listed, before);
      }
    }

    // The first part: every entry that is due gets its decision, its pool paused before. As many
    // decisions are taken with the pool not paused as there are entries that were misled.
    method ApplyRemediations(entries: seq<Entry>, suite: Suite, listed: map<string, Pool>)
      returns (ok: bool, affected: map<string, Pool>)
      requires Valid() && DistinctEntries(entries) && RemediationCopies(entries, rems)
      requires PoolsListed(entries, listed) && PoolCopies(listed, pools)
      modifies `pools, `rems, `trace, `attempts, `unpaused
      ensures Valid() && old(attempts) <= attempts
      ensures ok ==> Clean(failing, old(attempts), attempts)
      ensures ok ==> Worked(listed, affected, pools, old(pools)) && AllAffected(entries, affected)
      ensures ok ==> AllDecided(entries, suite, rems, old(rems))
      ensures exists i | 0 <= i <= |entries| :: AllDecided(entries[..i], suite, rems, old(rems))
      ensures DecisionsOnAll(start, old(trace), trace, entries, suite, listed, old(pools))
      ensures ok ==> unpaused == old(unpaused) + MisledCount(entries, listed, old(pools))
      ensures old(unpaused) <= unpaused <= old(unpaused) + MisledCount(entries, listed, old(pools))
      ensures Clean(failing, old(attempts), attempts) && AllUsable(entries, listed, old(pools), old(rems)) ==> ok
    {
      affected := map[];
      ghost var pools0, rems0, trace0 := pools, rems, trace;
      assert Underway(entries, 0, suite, listed, affected, pools, pools0, rems, rems0) by {
        assert entries[0..] == entries && entries[..0] == [];
      }
      for i := 0 to |entries|
        invariant Valid() && old(attempts) <= attempts && Clean(failing, old(attempts), attempts)
        invariant Underway(entries, i, suite, listed, affected, pools, pools0, rems, rems0)
        invariant unpaused == old(unpaused) + MisledCount(entries[..i], listed, pools0)
        invariant DecisionsOnAll(start, trace0, trace, entries[..i], suite, listed, pools0)
      {
        MisledNext(entries, i, listed, pools0);
        ghost var mid := trace;
        ok, affected := ApplyEntry(entries, i, suite, listed, affected, pools0, rems0);
        DecisionsGrow(start, trace0, mid, trace, entries, i, suite, listed, pools0);
        if !ok {
          assert AllDecided(entries[..i], suite, rems, rems0);
          return;
        }
      }
      assert entries[..|entries|] == entries;
      ok := true;
    }

    method ApplyEntry(entries: seq<Entry>, i: nat, suite: Suite, listed: map<string, Pool>, known: map<string, Pool>,
                      ghost pools0: map<string, Pool>, ghost rems0: map<string, Stored>)
      returns (ok: bool, affected: map<string, Pool>)
      requires Valid() && i < |entries| && DistinctEntries(entries)
      requires PoolsListed(entries, listed) && PoolCopies(listed, pools0)
      requires Underway(entries, i, suite, listed, known, pools, pools0, rems, rems0)
      modifies `pools, `rems, `trace, `attempts, `unpaused
      ensures Valid() && old(attempts) <= attempts
      ensures ok ==> Clean(failing, old(attempts), attempts)
      ensures ok ==> Underway(entries, i + 1, suite, listed, affected, pools, pools0, rems, rems0)
      ensures !ok ==> rems == old(rems)
      ensures DecisionsOn(start, old(trace), trace, entries[i], suite, Misled(entries[i], listed, pools0))
      ensures unpaused == old(unpaused) + if ok && Misled(entries[i], listed, pools0) then 1 else 0
      ensures Clean(failing, old(attempts), attempts) && AllUsable(entries, listed, pools0, rems0) ==> ok
    {
      ghost var before := rems;
      assert entries[i] in entries;
      ok, affected := ApplyRemediation(entries[i], suite, listed, known, pools0);
      if ok {
        ProgressNext(entries, i, suite, known, affected, before, rems, rems0);
      }
    }

    // The last part: every pool that was affected is read again and unpaused.
    method UnpausePools(affected: map<string, Pool>) returns (ok: bool)
      requires Valid() && CheckStands(trace)
      modifies `pools, `trace, `attempts
      ensures Valid() && CheckStands(trace) && pools.Keys == old(pools).Keys && old(attempts) <= attempts
      ensures NothingDecided(old(trace), trace)
      ensures ok ==> Clean(failing, old(attempts), attempts)
      ensures Clean(failing, old(attempts), attempts) && affected.Keys <= pools.Keys ==> ok
      ensures ok ==> forall p | p in affected :: p in pools && !pools[p].paused
      ensures forall p | p in pools && p !in affected :: pools[p] == old(pools)[p]
    {
      var left := affected.Keys;
      while left != {}
        invariant Valid() && CheckStands(trace) && left <= affected.Keys && pools.Keys == old(pools).Keys
        invariant NothingDecided(old(trace), trace)
        invariant old(attempts) <= attempts && Clean(failing, old(attempts), attempts)
        invariant forall p | p in affected && p !in left :: p in pools && !pools[p].paused
        invariant forall p | p in pools && p !in affected :: pools[p] == old(pools)[p]
        decreases |left|
      {
        var p :| p in left;
        left := left - {p};
        ok := UnpausePool(p);
        if !ok {
          return false;
        }
      }
      return true;
    }

    // One pool is read again, and written if it is paused.
    method UnpausePool(p: string) returns (ok: bool)
      requires Valid() && CheckStands(trace)
      modifies `pools, `trace, `attempts
      ensures Valid() && CheckStands(trace) && pools.Keys == old(pools).Keys && old(attempts) <= attempts
      ensures NothingDecided(old(trace), trace)
      ensures ok <==> Clean(failing, old(attempts), attempts) && p in pools
      ensures ok ==> !pools[p].paused
      ensures forall q | q in pools && q != p :: pools[q] == old(pools)[q]
    {
      var found := Attempt();
      if !found || p !in pools {
        return false;
      }
      var pool := pools[p];
      ok := true;
      if pool.paused {
        var updated;
        ok, updated := UpdatePool(p, pool.(paused := false));
      }
    }

    // One reconcile, on a first listing of any age, and with a second one to look at what became of
    // it. It fails only if a call does or a copy cannot be used, and then does not complete.
    method ReconcileRemediations(suite: Suite, entries: Option<seq<Entry>>, listed: Option<map<string, Pool>>,
                                 again: Option<seq<Remediation>>) returns (outcome: Outcome)
      requires Valid()
      requires entries.Some? ==> DistinctEntries(entries.value) && RemediationCopies(entries.value, rems)
      requires listed.Some? ==> PoolCopies(listed.value, pools)
      requires entries.Some? && listed.Some? ==> PoolsListed(entries.value, listed.value)
      modifies `pools, `rems, `trace, `attempts, `unpaused
      ensures Valid() && old(attempts) <= attempts
      ensures outcome.NothingToDo? ==> unchanged(this)
      ensures outcome.NothingToDo? <==>
                !(suite.autoApply || suite.applyAnnotation) || (entries.Some? && listed.Some? && !suite.done)
      ensures outcome.Failed? ==>
                || !Clean(failing, old(attempts), attempts) || entries.None? || listed.None? || again.None?
                || !PoolsUsable(listed.value, old(pools)) || !(listed.value.Keys <= old(pools).Keys)
                || !EntriesFresh(entries.value, old(rems))
      ensures !Clean(failing, old(attempts), attempts) ==> outcome.Failed?
      ensures outcome.NotAppliedYet? || outcome.Completed? ==>
                && entries.Some? && listed.Some? && again.Some? && (outcome.Completed? <==> AllSettled(again.value))
                && AllDecided(entries.value, suite, rems, old(rems))
                && PoolsLeft(entries.value, listed.value, old(pools), pools, outcome.Completed?)
                && unpaused == old(unpaused) + MisledCount(entries.value, listed.value, old(pools))
      ensures entries.Some? && listed.Some? ==>
                && unpaused <= old(unpaused) + MisledCount(entries.value, listed.value, old(pools))
                && DecisionsOnAll(start, old(trace), trace, entries.value, suite, listed.value, old(pools))
                && exists i | 0 <= i <= |entries.value| :: AllDecided(entries.value[..i], suite, rems, old(rems))
    {
      assert entries.Some? ==> entries.value[..0] == [] && AllDecided(entries.value[..0], suite, rems, rems);
      if !suite.ShouldApplyRemediations() {
        return NothingToDo;
      }
      if entries.None? || listed.None? {
        return Failed;
      }
      if !suite.done {
        return NothingToDo;
      }
      var ok, affected := ApplyRemediations(entries.value, suite, listed.value);
      if !ok || again.None? {
        return Failed;
      }
      ghost var decided := trace;
      var settled := Check(again.value);
      DecisionsStay(start, old(trace), decided, trace, entries.value, suite, listed.value, old(pools));
      if !settled {
        return NotAppliedYet;
      }
      ghost var looked := trace;
      ok := UnpausePools(affected);
      DecisionsStay(start, old(trace), looked, trace, entries.value, suite, listed.value, old(pools));
      if !ok {
        return Failed;
      }
      // The annotations that asked for this are dropped at last.
      if suite.applyAnnotation || suite.updateAnnotation {
        ok := Attempt();
        if !ok {
          return Failed;
        }
      }
      return Completed;
    }

    // Looks at every remediation, and stops at one that is not settled.
    method Check(again: seq<Remediation>) returns (settled: bool)
      requires Valid()
      modifies `trace
      ensures Valid() && settled == AllSettled(again) && CheckStands(trace) == settled
      ensures trace == old(trace) + [Checked(again)]
    {
      TraceStep(start, origin, trace, Checked(again));
      trace := trace + [Checked(again)];
      for i := 0 to |again|
        invariant AllSettled(again[..i])
      {
        assert again[..i + 1] == again[..i] + [again[i]];
        assert again[i] in again;
        if !IsApplied(again[i]) {
          if again[i].state == NeedsReview {
            continue;
          }
          return false;
        }
      }
      assert again[..|again|] == again;
      return true;
    }
  }
  /******* A pause that is over *******/

  const STALE_POOLS := map["worker" := Pool(true, 0)]

  const UNPAUSED_POOLS := map["worker" := Pool(false, 1)]

  predicate RestartsWorkers(e: Entry) {
    && e.stored.rem.current.Some? && e.stored.rem.current.value.kind.MachineConfig?
    && e.scan == Some(Scan(true, Some("worker")))
  }

  // The cache still shows the pool as paused that was unpaused since: the remediation is decided while
  // the nodes may restart, and the reconcile completes as if nothing was wrong.
  method StalePauseIsBelieved(e: Entry, suite: Suite) returns (c: ReconcileComplianceSuite, outcome: Outcome)
    requires RestartsWorkers(e) && suite.done && suite.ShouldApplyRemediations()
    ensures outcome.Completed? && c.unpaused == 1 && !DecidedWhilePaused(c.start, c.trace)
  {
    c := new ReconcileComplianceSuite(UNPAUSED_POOLS, map[e.name := e.stored], {});
    outcome := c.ReconcileRemediations(suite, Some([e]), Some(STALE_POOLS), Some([]));
    NoneUnpausedMeans(c.start, c.trace);
  }
}
