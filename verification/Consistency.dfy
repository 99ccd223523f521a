/** What the cross-node aggregation of results means, id by id: the state it keeps after any
    history of batches, a closed form of it, and the ledger of reports that it conserves. */
module Consistency {
  import opened Options
  import opened CheckResults

  // The result list of one ConfigMap. Node scans name their node; a platform scan has no source.
  datatype Batch = Batch(source: string, results: seq<ParseResult>)

  datatype ErrorReason = DifferInMoreThanStatus | FoundInBothLists

  datatype Annotations = Annotations(error: Option<ErrorReason>,
                                     inconsistentSources: seq<(string, Status)>,
                                     mostCommon: Option<Status>)

  const NO_ANNOTATIONS := Annotations(None, [], None)

  datatype Item = Item(result: ParseResult, annotations: Annotations, inconsistentLabel: bool,
                       sources: seq<string>, processed: bool)

  function NewItem(pr: ParseResult, sources: seq<string>): Item {
    Item(pr, NO_ANNOTATIONS, false, sources, false)
  }

  // What the aggregation holds about one id.
  datatype IdState = IdState(consistent: Option<Item>, inconsistent: seq<Item>)

  const UNSEEN := IdState(None, [])

  // The reports of one id in a list, in order. Well-formed lists hold at most one.
  function ReportsFor(results: seq<ParseResult>, id: string): (reports: seq<ParseResult>) {
    if results == [] then []
    else
      var init, last := results[..|results| - 1], results[|results| - 1];
      if last.id == id then ReportsFor(init, id) + [last] else ReportsFor(init, id)
  }

  lemma {:induction false} ReportsForMembers(results: seq<ParseResult>, id: string)
    ensures forall pr :: pr in ReportsFor(results, id) <==> pr in results && pr.id == id
  {
    if results == [] {
    } else {
      ReportsForMembers(results[..|results| - 1], id);
      assert results == results[..|results| - 1] + [results[|results| - 1]];
    }
  }

  ghost predicate Started(history: seq<Batch>) {
    exists i | 0 <= i < |history| :: history[i].results != []
  }

  ghost predicate Seen(history: seq<Batch>, id: string) {
    exists i | 0 <= i < |history| :: ReportsFor(history[i].results, id) != []
  }

  // A batch taken at face value: the last report of the id wins.
  function Overwrite(st: IdState, source: string, reports: seq<ParseResult>): IdState {
    if reports == [] then st
    else st.(consistent := Some(NewItem(reports[|reports| - 1], [source])))
  }

  // One report of a later batch.
  function AbsorbOne(st: IdState, source: string, pr: ParseResult): IdState {
    if st.consistent.None? then
      st.(inconsistent := st.inconsistent + [NewItem(pr, [source])])
    else
      var item := st.consistent.value;
      if Agrees(item.result, pr) then
        st.(consistent := Some(item.(sources := item.sources + [source])))
      else
        IdState(None, st.inconsistent + [NewItem(item.result, item.sources), NewItem(pr, [source])])
  }

  function Absorb(st: IdState, source: string, reports: seq<ParseResult>): IdState {
    if reports == [] then st
    else AbsorbOne(Absorb(st, source, reports[..|reports| - 1]), source, reports[|reports| - 1])
  }

  // Absorbing a list one result at a time.
  lemma AbsorbNext(st: IdState, source: string, results: seq<ParseResult>, i: nat, id: string)
    requires i < |results|
    ensures ReportsFor(results[..i + 1], id) ==
            ReportsFor(results[..i], id) + if results[i].id == id then [results[i]] else []
    ensures Absorb(st, source, ReportsFor(results[..i + 1], id)) ==
            var before := Absorb(st, source, ReportsFor(results[..i], id));
            if results[i].id == id then AbsorbOne(before, source, results[i]) else before
  {
    assert results[..i + 1][..i] == results[..i];
    var reports := ReportsFor(results[..i], id);
    assert (reports + [results[i]])[..|reports|] == reports;
  }

  // A consistent id that a later batch does not report is no longer consistent.
  function Untouched(st: IdState): IdState {
    if st.consistent.None? then st
    else IdState(None, st.inconsistent + [NewItem(st.consistent.value.result, st.consistent.value.sources)])
  }

  function Merge(st: IdState, source: string, reports: seq<ParseResult>): IdState {
    if reports == [] then Untouched(st) else Absorb(st, source, reports)
  }

  // One batch: taken at face value if it is the first or has no source, compared otherwise.
  function NextState(st: IdState, started: bool, source: string, reports: seq<ParseResult>): IdState {
    if source == "" || !started then Overwrite(st, source, reports) else Merge(st, source, reports)
  }

  // The state of one id after a whole history.
  ghost function StateOf(history: seq<Batch>, id: string): IdState {
    if history == [] then UNSEEN
    else
      var earlier, batch := history[..|history| - 1], history[|history| - 1];
      NextState(StateOf(earlier, id), Started(earlier), batch.source, ReportsFor(batch.results, id))
  }

  // Ids are never lost: something is held about an id exactly when some batch reported it.
  lemma {:induction false} HeldIffSeen(history: seq<Batch>, id: string)
    ensures StateOf(history, id) != UNSEEN <==> Seen(history, id)
  {
    if history == [] {
    } else {
      var earlier, batch := history[..|history| - 1], history[|history| - 1];
      HeldIffSeen(earlier, id);
      AbsorbHolds(StateOf(earlier, id), batch.source, ReportsFor(batch.results, id));
      if i :| 0 <= i < |earlier| && ReportsFor(earlier[i].results, id) != [] {
        assert ReportsFor(history[i].results, id) != [];
      }
      if ReportsFor(batch.results, id) != [] {
        assert ReportsFor(history[|history| - 1].results, id) != [];
      }
    }
  }

  lemma {:induction false} AbsorbHolds(st: IdState, source: string, reports: seq<ParseResult>)
    ensures st != UNSEEN || reports != [] ==> Absorb(st, source, reports) != UNSEEN
  {
    if reports == [] {
    } else {
      AbsorbHolds(st, source, reports[..|reports| - 1]);
    }
  }

  lemma StartedIffSomethingSeen(history: seq<Batch>)
    ensures Started(history) <==> exists id :: Seen(history, id)
  {
    if i :| 0 <= i < |history| && history[i].results != [] {
      var pr := history[i].results[0];
      ReportsForMembers(history[i].results, pr.id);
      assert pr in ReportsFor(history[i].results, pr.id);
      assert Seen(history, pr.id);
    }
    if id :| Seen(history, id) {
      var i :| 0 <= i < |history| && ReportsFor(history[i].results, id) != [];
      ReportsForMembers(history[i].results, id);
      assert ReportsFor(history[i].results, id)[0] in history[i].results;
    }
  }

  /******* Scans of the platform, whose batches have no source *******/

  ghost predicate PlatformOnly(history: seq<Batch>) {
    forall i | 0 <= i < |history| :: history[i].source == ""
  }

  // The report of an id after which there is no other.
  ghost predicate IsLatest(history: seq<Batch>, id: string, pr: ParseResult) {
    exists i | 0 <= i < |history| ::
      && LastOf(history[i].results, id) == Some(pr)
      && forall j | i < j < |history| :: LastOf(history[j].results, id) == None
  }

  function LastOf(results: seq<ParseResult>, id: string): Option<ParseResult> {
    if results == [] then None
    else if results[|results| - 1].id == id then Some(results[|results| - 1])
    else LastOf(results[..|results| - 1], id)
  }

  lemma {:induction false} LastOfReports(results: seq<ParseResult>, id: string)
    ensures var reports := ReportsFor(results, id);
            LastOf(results, id) == if reports == [] then None else Some(reports[|reports| - 1])
  {
    if results == [] {
    } else {
      LastOfReports(results[..|results| - 1], id);
    }
  }

  // Nothing is compared: of each check the latest report is held, and none is inconsistent.
  lemma {:induction false} PlatformKeepsLatest(history: seq<Batch>, id: string)
    requires PlatformOnly(history)
    ensures Seen(history, id) ==>
              exists pr :: IsLatest(history, id, pr) && StateOf(history, id) == IdState(Some(NewItem(pr, [""])), [])
    ensures !Seen(history, id) ==> StateOf(history, id) == UNSEEN
  {
    HeldIffSeen(history, id);
    if history == [] {
    } else {
      var earlier, batch := history[..|history| - 1], history[|history| - 1];
      var reports := ReportsFor(batch.results, id);
      HeldIffSeen(earlier, id);
      PlatformKeepsLatest(earlier, id);
      LastOfReports(batch.results, id);
      if reports != [] {
        assert IsLatest(history, id, reports[|reports| - 1]);
      } else if Seen(earlier, id) {
        var pr :| IsLatest(earlier, id, pr) && StateOf(earlier, id) == IdState(Some(NewItem(pr, [""])), []);
        LatestStays(earlier, batch, id, pr);
        assert history == earlier + [batch];
      }
    }
  }

  lemma LatestStays(earlier: seq<Batch>, batch: Batch, id: string, pr: ParseResult)
    requires IsLatest(earlier, id, pr) && LastOf(batch.results, id) == None
    ensures IsLatest(earlier + [batch], id, pr)
  {
    var history := earlier + [batch];
    var i :| 0 <= i < |earlier| && LastOf(earlier[i].results, id) == Some(pr) &&
             forall j | i < j < |earlier| :: LastOf(earlier[j].results, id) == None;
    assert history[i] == earlier[i];
    assert forall j | i < j < |history| :: history[j] == if j < |earlier| then earlier[j] else batch;
  }

  /******* Closed form, for scans whose batches all come from nodes *******/

  ghost predicate NodesOnly(history: seq<Batch>) {
    forall i | 0 <= i < |history| :: history[i].source != ""
  }

  // The index of the first batch that is not empty.
  ghost function First(history: seq<Batch>): (f: nat)
    requires Started(history)
    ensures f < |history| && history[f].results != []
    ensures forall i | 0 <= i < f :: history[i].results == []
  {
    var earlier := history[..|history| - 1];
    if Started(earlier) then First(earlier)
    else
      assert forall i | 0 <= i < |earlier| :: history[i] == earlier[i];
      |history| - 1
  }

  lemma FirstIsUnique(history: seq<Batch>, f: nat)
    requires f < |history| && history[f].results != []
    requires forall i | 0 <= i < f :: history[i].results == []
    ensures Started(history) && First(history) == f
  {
  }

  // Every report agrees with the base one, and there is at least one.
  ghost predicate AllAgree(base: ParseResult, reports: seq<ParseResult>) {
    reports != [] && forall k | 0 <= k < |reports| :: Agrees(base, reports[k])
  }

  ghost function FirstReports(history: seq<Batch>, id: string): seq<ParseResult>
    requires Started(history)
  {
    ReportsFor(history[First(history)].results, id)
  }

  // The report that later ones are compared with.
  ghost function BaseReport(history: seq<Batch>, id: string): ParseResult
    requires Started(history) && FirstReports(history, id) != []
  {
    var reports := FirstReports(history, id);
    reports[|reports| - 1]
  }

  // An id is consistent when the first non-empty batch has it and every later batch has it and
  // agrees with the first.
  ghost predicate IsConsistent(history: seq<Batch>, id: string) {
    && Started(history)
    && FirstReports(history, id) != []
    && forall j | First(history) < j < |history| ::
         AllAgree(BaseReport(history, id), ReportsFor(history[j].results, id))
  }

  function Repeat<T>(x: T, n: nat): (s: seq<T>)
    ensures |s| == n && forall i | 0 <= i < n :: s[i] == x
  {
    if n == 0 then [] else Repeat(x, n - 1) + [x]
  }

  // A report as the ledger keeps it: who said it, and the check and remediation objects they said.
  type Report = (string, Content)

  function Reports(source: string, prs: seq<ParseResult>): (reports: seq<Report>)
    ensures |reports| == |prs|
    ensures forall i | 0 <= i < |prs| :: reports[i] == (source, Payload(prs[i]))
  {
    seq(|prs|, i requires 0 <= i < |prs| => (source, Payload(prs[i])))
  }

  // Every report of an id that the scan made, in order. A first batch that repeats an id
  // counts for its last report only.
  ghost function History(history: seq<Batch>, id: string): seq<Report> {
    if history == [] then []
    else
      var earlier, batch := history[..|history| - 1], history[|history| - 1];
      History(earlier, id) + Counted(Started(earlier), batch.source, ReportsFor(batch.results, id))
  }

  function Counted(started: bool, source: string, reports: seq<ParseResult>): seq<Report> {
    if started || reports == [] then Reports(source, reports)
    else Reports(source, reports[|reports| - 1..])
  }

  // The reports an item stands for.
  function ItemReports(item: Item): (reports: seq<Report>)
    ensures |reports| == |item.sources|
  {
    SourceReports(item.sources, Payload(item.result))
  }

  function SourceReports(sources: seq<string>, content: Content): (reports: seq<Report>)
    ensures |reports| == |sources|
    ensures forall i | 0 <= i < |sources| :: reports[i] == (sources[i], content)
  {
    seq(|sources|, i requires 0 <= i < |sources| => (sources[i], content))
  }

  function Ledger(items: seq<Item>): seq<Report> {
    if items == [] then []
    else Ledger(items[..|items| - 1]) + ItemReports(items[|items| - 1])
  }

  function StateLedger(st: IdState): seq<Report> {
    Ledger(st.inconsistent) + (if st.consistent.Some? then ItemReports(st.consistent.value) else [])
  }

  lemma LedgerAppend(items: seq<Item>, item: Item)
    ensures Ledger(items + [item]) == Ledger(items) + ItemReports(item)
  {
    assert (items + [item])[..|items|] == items;
  }

  // Once items are inconsistent, each further item comes from exactly one source.
  ghost predicate OneSourceAfterFirst(items: seq<Item>) {
    forall i | 0 < i < |items| :: |items[i].sources| == 1
  }

  // What node batches keep true of every id: it is on one side only, its items carry no
  // annotations, and a consistent item has been agreed with by all its sources.
  ghost predicate NodeState(st: IdState) {
    && (st.consistent.Some? ==> st.inconsistent == [] && PlainItem(st.consistent.value))
    && (forall i | 0 <= i < |st.inconsistent| :: PlainItem(st.inconsistent[i]))
    && OneSourceAfterFirst(st.inconsistent)
  }

  ghost predicate PlainItem(item: Item) {
    item == NewItem(item.result, item.sources) && item.sources != []
  }

  // The next state is one that nodes lead to, and says these reports more.
  ghost predicate Conserves(st: IdState, next: IdState, reports: seq<Report>) {
    NodeState(next) && StateLedger(next) == StateLedger(st) + reports
  }

  lemma {:induction false} ConservesBoth(st: IdState, mid: IdState, next: IdState, first: seq<Report>,
                                         more: seq<Report>)
    requires Conserves(st, mid, first) && Conserves(mid, next, more)
    ensures Conserves(st, next, first + more)
  {
    var ledger := StateLedger(st);
    assert (ledger + first) + more == ledger + (first + more);
  }

  lemma {:induction false} AbsorbConserves(st: IdState, source: string, reports: seq<ParseResult>)
    requires NodeState(st)
    ensures Conserves(st, Absorb(st, source, reports), Reports(source, reports))
  {
    if reports == [] {
      assert StateLedger(st) + [] == StateLedger(st);
    } else {
      var init, pr := reports[..|reports| - 1], reports[|reports| - 1];
      var before := Absorb(st, source, init);
      AbsorbConserves(st, source, init);
      AbsorbOneConserves(before, source, pr);
      ConservesBoth(st, before, AbsorbOne(before, source, pr), Reports(source, init), [(source, Payload(pr))]);
      ReportsAppend(source, init, pr);
      assert reports == init + [pr];
    }
  }

  lemma ReportsAppend(source: string, prs: seq<ParseResult>, pr: ParseResult)
    ensures Reports(source, prs + [pr]) == Reports(source, prs) + [(source, Payload(pr))]
  {
  }

  lemma ItemReportsAppend(item: Item, source: string)
    ensures ItemReports(item.(sources := item.sources + [source])) ==
            ItemReports(item) + [(source, Payload(item.result))]
  {
    assert (item.sources + [source])[..|item.sources|] == item.sources;
  }

  lemma AbsorbOneConserves(st: IdState, source: string, pr: ParseResult)
    requires NodeState(st)
    ensures Conserves(st, AbsorbOne(st, source, pr), [(source, Payload(pr))])
  {
    if st.consistent.None? {
      LedgerAppend(st.inconsistent, NewItem(pr, [source]));
    } else if Agrees(st.consistent.value.result, pr) {
      AgreesIsPayloadEquality(st.consistent.value.result, pr);
      ItemReportsAppend(st.consistent.value, source);
    } else {
      var item := st.consistent.value;
      SplitConserves(item, source, pr);
      assert [] + [item, NewItem(pr, [source])] == [item, NewItem(pr, [source])];
    }
  }

  lemma SplitConserves(item: Item, source: string, pr: ParseResult)
    ensures Ledger([item, NewItem(pr, [source])]) == ItemReports(item) + [(source, Payload(pr))]
  {
    var single := NewItem(pr, [source]);
    LedgerAppend([], item);
    LedgerAppend([item], single);
    assert [] + [item] == [item] && [item] + [single] == [item, single];
  }

  lemma NextStateConserves(st: IdState, started: bool, source: string, reports: seq<ParseResult>)
    requires NodeState(st) && source != "" && (!started ==> st == UNSEEN)
    ensures NodeState(NextState(st, started, source, reports))
    ensures StateLedger(NextState(st, started, source, reports)) == StateLedger(st) + Counted(started, source, reports)
  {
    if started {
      AbsorbConserves(st, source, reports);
    } else if reports != [] {
    }
  }

  lemma NothingSeenBeforeStart(history: seq<Batch>, id: string)
    requires !Started(history)
    ensures StateOf(history, id) == UNSEEN
  {
    HeldIffSeen(history, id);
    StartedIffSomethingSeen(history);
  }

  lemma {:induction false} NodesKeepNodeState(history: seq<Batch>, id: string)
    requires NodesOnly(history)
    ensures NodeState(StateOf(history, id))
  {
    if history == [] {
    } else {
      var earlier, batch := history[..|history| - 1], history[|history| - 1];
      NodesKeepNodeState(earlier, id);
      if !Started(earlier) { NothingSeenBeforeStart(earlier, id); }
      NextStateConserves(StateOf(earlier, id), Started(earlier), batch.source, ReportsFor(batch.results, id));
    }
  }

  // Conservation: no report is dropped, invented, reordered or attributed to another node.
  lemma {:induction false} ReportsConserved(history: seq<Batch>, id: string)
    requires NodesOnly(history)
    ensures StateLedger(StateOf(history, id)) == History(history, id)
  {
    if history == [] {
    } else {
      var earlier, batch := history[..|history| - 1], history[|history| - 1];
      ReportsConserved(earlier, id);
      NodesKeepNodeState(earlier, id);
      if !Started(earlier) { NothingSeenBeforeStart(earlier, id); }
      NextStateConserves(StateOf(earlier, id), Started(earlier), batch.source, ReportsFor(batch.results, id));
    }
  }

  // The earliest report of an id. In the first non-empty batch its last occurrence counts.
  ghost function EarliestReport(history: seq<Batch>, id: string): (pr: ParseResult)
    requires Seen(history, id)
    ensures pr.id == id
  {
    var earlier, batch := history[..|history| - 1], history[|history| - 1];
    var reports := ReportsFor(batch.results, id);
    if Seen(earlier, id) then EarliestReport(earlier, id)
    else
      assert reports != [] by {
        var i :| 0 <= i < |history| && ReportsFor(history[i].results, id) != [];
        assert i < |earlier| ==> earlier[i] == history[i];
      }
      ReportsForMembers(batch.results, id);
      assert reports[0] in reports && reports[|reports| - 1] in reports;
      if Started(earlier) then reports[0] else reports[|reports| - 1]
  }

  // The item that stands first for an id, and so names and describes the final result.
  function Head(st: IdState): Item
    requires st != UNSEEN
  {
    if st.inconsistent != [] then st.inconsistent[0] else st.consistent.value
  }

  lemma {:induction false} AbsorbKeepsHead(st: IdState, source: string, reports: seq<ParseResult>)
    requires NodeState(st) && (st != UNSEEN || reports != [])
    ensures Absorb(st, source, reports) != UNSEEN
    ensures Head(Absorb(st, source, reports)).result == if st == UNSEEN then reports[0] else Head(st).result
  {
    AbsorbConserves(st, source, reports);
    if reports == [] {
    } else {
      var init := reports[..|reports| - 1];
      AbsorbConserves(st, source, init);
      if st != UNSEEN || init != [] {
        AbsorbKeepsHead(st, source, init);
      }
    }
  }

  lemma {:induction false} EarliestReportStandsFirst(history: seq<Batch>, id: string)
    requires NodesOnly(history) && Seen(history, id)
    ensures StateOf(history, id) != UNSEEN
    ensures Head(StateOf(history, id)).result == EarliestReport(history, id)
  {
    var earlier, batch := history[..|history| - 1], history[|history| - 1];
    var reports := ReportsFor(batch.results, id);
    HeldIffSeen(history, id);
    HeldIffSeen(earlier, id);
    NodesKeepNodeState(earlier, id);
    if !Started(earlier) { NothingSeenBeforeStart(earlier, id); }
    if Seen(earlier, id) {
      EarliestReportStandsFirst(earlier, id);
      StartedIffSomethingSeen(earlier);
    }
    if Started(earlier) && reports != [] {
      AbsorbKeepsHead(StateOf(earlier, id), batch.source, reports);
    }
  }

  /******* The consistent side holds exactly the ids that every batch agrees on *******/

  lemma {:induction false} AbsorbAgreeing(st: IdState, source: string, reports: seq<ParseResult>)
    requires st.consistent.Some? && st.inconsistent == [] && PlainItem(st.consistent.value)
    ensures var base := st.consistent.value;
            var after := Absorb(st, source, reports);
            if forall k | 0 <= k < |reports| :: Agrees(base.result, reports[k]) then
              after == IdState(Some(NewItem(base.result, base.sources + Repeat(source, |reports|))), [])
            else
              after.consistent.None?
  {
    var base := st.consistent.value;
    if reports != [] {
      var init, pr := reports[..|reports| - 1], reports[|reports| - 1];
      AbsorbAgreeing(st, source, init);
      assert forall k | 0 <= k < |init| :: init[k] == reports[k];
      if forall k | 0 <= k < |init| :: Agrees(base.result, init[k]) {
        assert base.sources + Repeat(source, |init|) + [source] == base.sources + Repeat(source, |reports|);
        assert forall k | 0 <= k < |reports| :: reports[k] == if k < |init| then init[k] else pr;
      }
    } else {
      assert base.sources + Repeat(source, 0) == base.sources;
    }
  }

  lemma {:induction false} NoneStaysNone(st: IdState, source: string, reports: seq<ParseResult>)
    requires st.consistent.None?
    ensures Absorb(st, source, reports).consistent.None?
  {
    if reports == [] {
    } else {
      NoneStaysNone(st, source, reports[..|reports| - 1]);
    }
  }

  // The sources of a consistent id: every batch from the first non-empty one on, in order.
  ghost function AgreeingSources(history: seq<Batch>, id: string): seq<string>
    requires Started(history)
  {
    var earlier, batch := history[..|history| - 1], history[|history| - 1];
    if Started(earlier) then AgreeingSources(earlier, id) + Repeat(batch.source, |ReportsFor(batch.results, id)|)
    else [batch.source]
  }

  lemma FirstStays(earlier: seq<Batch>, batch: Batch, id: string)
    requires Started(earlier)
    ensures Started(earlier + [batch]) && First(earlier + [batch]) == First(earlier)
    ensures FirstReports(earlier + [batch], id) == FirstReports(earlier, id)
  {
    var history := earlier + [batch];
    assert forall j | 0 <= j < |earlier| :: history[j] == earlier[j];
    FirstIsUnique(history, First(earlier));
  }

  lemma ConsistentSplit(earlier: seq<Batch>, batch: Batch, id: string)
    requires Started(earlier)
    ensures IsConsistent(earlier + [batch], id) <==>
            IsConsistent(earlier, id) && AllAgree(BaseReport(earlier, id), ReportsFor(batch.results, id))
  {
    var history := earlier + [batch];
    FirstStays(earlier, batch, id);
    if IsConsistent(history, id) {
      assert history[|earlier|] == batch;
      forall j | First(earlier) < j < |earlier|
        ensures AllAgree(BaseReport(earlier, id), ReportsFor(earlier[j].results, id))
      {
        assert history[j] == earlier[j];
      }
    }
    if IsConsistent(earlier, id) && AllAgree(BaseReport(earlier, id), ReportsFor(batch.results, id)) {
      forall j | First(history) < j < |history|
        ensures AllAgree(BaseReport(history, id), ReportsFor(history[j].results, id))
      {
        assert history[j] == if j < |earlier| then earlier[j] else batch;
      }
    }
  }

  lemma MergeOutcome(st: IdState, source: string, reports: seq<ParseResult>)
    requires NodeState(st)
    ensures st.consistent.Some? && AllAgree(st.consistent.value.result, reports) ==>
              Merge(st, source, reports) ==
              IdState(Some(NewItem(st.consistent.value.result,
                                   st.consistent.value.sources + Repeat(source, |reports|))), [])
    ensures st.consistent.None? || !AllAgree(st.consistent.value.result, reports) ==>
              Merge(st, source, reports).consistent.None?
  {
    if st.consistent.Some? {
      AbsorbAgreeing(st, source, reports);
    } else {
      NoneStaysNone(st, source, reports);
    }
  }

  ghost predicate ConsistentExactly(history: seq<Batch>, id: string) {
    && (StateOf(history, id).consistent.Some? <==> IsConsistent(history, id))
    && (IsConsistent(history, id) ==>
          StateOf(history, id) == IdState(Some(NewItem(BaseReport(history, id), AgreeingSources(history, id))), []))
  }

  lemma {:induction false} ConsistentStep(earlier: seq<Batch>, batch: Batch, id: string)
    requires Started(earlier) && batch.source != ""
    requires NodeState(StateOf(earlier, id)) && ConsistentExactly(earlier, id)
    ensures ConsistentExactly(earlier + [batch], id)
  {
    var history := earlier + [batch];
    assert history[..|history| - 1] == earlier;
    FirstStays(earlier, batch, id);
    ConsistentSplit(earlier, batch, id);
    MergeOutcome(StateOf(earlier, id), batch.source, ReportsFor(batch.results, id));
  }

  lemma {:induction false} ConsistentStart(earlier: seq<Batch>, batch: Batch, id: string)
    requires !Started(earlier)
    ensures ConsistentExactly(earlier + [batch], id)
  {
    var history := earlier + [batch];
    assert history[..|history| - 1] == earlier;
    NothingSeenBeforeStart(earlier, id);
    assert forall i | 0 <= i < |earlier| :: history[i] == earlier[i] && earlier[i].results == [];
    if batch.results != [] {
      FirstIsUnique(history, |earlier|);
    } else {
      NothingSeenBeforeStart(history, id);
    }
  }

  lemma {:induction false} ConsistentIffAllAgree(history: seq<Batch>, id: string)
    requires NodesOnly(history)
    ensures StateOf(history, id).consistent.Some? <==> IsConsistent(history, id)
    ensures IsConsistent(history, id) ==>
              StateOf(history, id) == IdState(Some(NewItem(BaseReport(history, id), AgreeingSources(history, id))), [])
  {
    if history == [] {
    } else {
      var earlier, batch := history[..|history| - 1], history[|history| - 1];
      assert history == earlier + [batch];
      if Started(earlier) {
        ConsistentIffAllAgree(earlier, id);
        NodesKeepNodeState(earlier, id);
        ConsistentStep(earlier, batch, id);
      } else {
        ConsistentStart(earlier, batch, id);
      }
      assert ConsistentExactly(history, id);
    }
  }

  /******* Batches without repeated ids *******/

  ghost predicate DistinctIds(results: seq<ParseResult>) {
    forall i, j | 0 <= i < j < |results| :: results[i].id != results[j].id
  }

  lemma {:induction false} DistinctReportedOnce(results: seq<ParseResult>, id: string)
    requires DistinctIds(results)
    ensures |ReportsFor(results, id)| <= 1
  {
    if results == [] {
    } else {
      var init, last := results[..|results| - 1], results[|results| - 1];
      DistinctReportedOnce(init, id);
      ReportsForMembers(init, id);
      var reports := ReportsFor(init, id);
      assert reports != [] ==> reports[0] in init && reports[0].id == id;
      assert forall i | 0 <= i < |init| :: init[i] == results[i] && init[i].id != last.id;
    }
  }

  // With one report per batch, a consistent id names each batch from the first non-empty one
  // on exactly once, in the order the batches came.
  lemma {:induction false} SourcesAreTheBatches(history: seq<Batch>, id: string)
    requires forall i | 0 <= i < |history| :: DistinctIds(history[i].results)
    requires IsConsistent(history, id)
    ensures AgreeingSources(history, id) == SourcesFrom(history, First(history))
  {
    var earlier, batch := history[..|history| - 1], history[|history| - 1];
    assert history == earlier + [batch];
    if Started(earlier) {
      FirstStays(earlier, batch, id);
      ConsistentSplit(earlier, batch, id);
      SourcesAreTheBatches(earlier, id);
      DistinctReportedOnce(batch.results, id);
      assert Repeat(batch.source, |ReportsFor(batch.results, id)|) == [batch.source];
      SourcesFromAppend(earlier, batch, First(earlier));
    } else {
      assert forall i | 0 <= i < |earlier| :: earlier[i].results == [] && earlier[i] == history[i];
      FirstIsUnique(history, |earlier|);
      SourcesFromAppend(earlier, batch, |earlier|);
    }
  }

  function SourcesFrom(history: seq<Batch>, f: nat): (sources: seq<string>)
    requires f <= |history|
    ensures |sources| == |history| - f
    ensures forall k | 0 <= k < |sources| :: sources[k] == history[f + k].source
    decreases |history| - f
  {
    if f == |history| then [] else [history[f].source] + SourcesFrom(history, f + 1)
  }

  lemma {:induction false} SourcesFromAppend(history: seq<Batch>, batch: Batch, f: nat)
    requires f <= |history|
    ensures SourcesFrom(history + [batch], f) == SourcesFrom(history, f) + [batch.source]
    decreases |history| - f
  {
    if f < |history| {
      SourcesFromAppend(history, batch, f + 1);
    } else {
      assert SourcesFrom(history + [batch], f + 1) == [];
    }
  }
}
