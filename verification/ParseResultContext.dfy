/** The aggregator's working state: two maps that each batch of results is sorted into, and the
    final pass that turns every inconsistent id into one result. */
module ParseContext {
  import opened Options
  import opened CheckResults
  import opened Consistency
  import opened Consensus

  type Consistent = map<string, Item>
  type Inconsistent = map<string, seq<Item>>

  // What the two maps hold about one id. The processed mark only matters within a batch.
  function ViewOf(c: Consistent, n: Inconsistent, id: string): IdState {
    IdState(if id in c then Some(c[id].(processed := false)) else None, if id in n then n[id] else [])
  }

  // Items are stored under their own id, and no inconsistent list is empty.
  ghost predicate Keyed(c: Consistent, n: Inconsistent) {
    && (forall id | id in c :: c[id].result.id == id)
    && (forall id | id in n :: n[id] != [] && ListedUnder(id, n[id]))
  }

  ghost predicate ListedUnder(id: string, items: seq<Item>) {
    forall i | 0 <= i < |items| :: items[i].result.id == id
  }

  // What comparing one report, and a list of reports, does to every id.
  ghost predicate ComparedOne(c: Consistent, n: Inconsistent, c': Consistent, n': Inconsistent,
                              source: string, pr: ParseResult)
  {
    && ViewOf(c', n', pr.id) == AbsorbOne(ViewOf(c, n, pr.id), source, pr)
    && (forall other | other != pr.id :: ViewOf(c', n', other) == ViewOf(c, n, other))
    && (forall id | id in c' :: id in c && c'[id].processed == (id == pr.id || c[id].processed))
  }

  ghost predicate Compared(c: Consistent, n: Inconsistent, c': Consistent, n': Inconsistent,
                           source: string, prs: seq<ParseResult>)
  {
    && (forall id :: ViewOf(c', n', id) == Absorb(ViewOf(c, n, id), source, ReportsFor(prs, id)))
    && (forall id | id in c' :: c'[id].processed <==> ReportsFor(prs, id) != [])
  }

  lemma ComparedNext(c: Consistent, n: Inconsistent, c1: Consistent, n1: Inconsistent, c2: Consistent, n2: Inconsistent,
                     source: string, prs: seq<ParseResult>, i: nat)
    requires i < |prs| && Compared(c, n, c1, n1, source, prs[..i]) && ComparedOne(c1, n1, c2, n2, source, prs[i])
    ensures Compared(c, n, c2, n2, source, prs[..i + 1])
  {
    forall id
      ensures ViewOf(c2, n2, id) == Absorb(ViewOf(c, n, id), source, ReportsFor(prs[..i + 1], id))
      ensures id in c2 ==> (c2[id].processed <==> ReportsFor(prs[..i + 1], id) != [])
    {
      assert ViewOf(c1, n1, id) == Absorb(ViewOf(c, n, id), source, ReportsFor(prs[..i], id));
      AbsorbNext(ViewOf(c, n, id), source, prs, i, id);
      assert id in c2 ==> id in c1 && (c1[id].processed <==> ReportsFor(prs[..i], id) != []);
    }
  }

  function InBothLists(item: Item): Item
    requires item.result.check.Some?
  {
    var check := item.result.check.value;
    item.(result := item.result.(remediations := NilList, check := Some(check.(status := Error))),
          annotations := Annotations(Some(FoundInBothLists), [], None))
  }

  // The result of one inconsistent id.
  ghost predicate FinalItem(items: seq<Item>, inBoth: bool, item: Item) {
    exists reconciled | Reconciled(items, reconciled) ::
      item == if inBoth then InBothLists(reconciled) else reconciled
  }

  // What the final pass leaves for an id.
  ghost predicate Finished(c: Consistent, n: Inconsistent, c': Consistent, id: string) {
    if id !in n then
      (id in c' <==> id in c) && (id in c' ==> c'[id] == c[id])
    else
      id in c' && FinalItem(n[id], id in c, c'[id])
  }

  // The final pass on its way: the ids in `todo` are still to come.
  ghost predicate PartlyFinished(c: Consistent, n: Inconsistent, c': Consistent, todo: set<string>) {
    && (forall id | id in todo :: id in c' <==> id in c)
    && (forall id | id !in todo :: Finished(c, n, c', id))
  }

  lemma FinishedNext(c: Consistent, n: Inconsistent, c1: Consistent, todo: set<string>, id: string, item: Item)
    requires PartlyFinished(c, n, c1, todo) && id in todo && id in n
    requires FinalItem(n[id], id in c1, item)
    ensures PartlyFinished(c, n, c1[id := item], todo - {id})
  {
    forall other | other !in todo - {id}
      ensures Finished(c, n, c1[id := item], other)
    {
      assert other != id ==> Finished(c, n, c1, other);
    }
  }

  class ParseResultContext {
    var consistent: Consistent
    var inconsistent: Inconsistent
    ghost var history: seq<Batch>

    // The maps are, id by id, what the history of batches says.
    ghost predicate Valid()
      reads this
    {
      Keyed(consistent, inconsistent) && forall id :: ViewOf(consistent, inconsistent, id) == StateOf(history, id)
    }

    constructor ()
      ensures Valid() && history == []
    {
      consistent, inconsistent, history := map[], map[], [];
    }

    method AddResults(source: string, parsedResList: seq<ParseResult>)
      requires Valid()
      modifies this
      ensures Valid()
      ensures history == old(history) + [Batch(source, parsedResList)]
    {
      label before:
      EmptyIffNotStarted();
      history := history + [Batch(source, parsedResList)];
      assert history[..|history| - 1] == old(history);
      if source == "" {
        AddConsistentResults(source, parsedResList);
        return;
      }
      if |inconsistent| == 0 && |consistent| == 0 {
        AddConsistentResults(source, parsedResList);
      } else {
        AddParsedResults(source, parsedResList);
      }
    }

    lemma EmptyIffNotStarted()
      requires Valid()
      ensures |inconsistent| == 0 && |consistent| == 0 <==> !Started(history)
    {
      StartedIffSomethingSeen(history);
      forall id ensures id in consistent || id in inconsistent <==> Seen(history, id) {
        assert ViewOf(consistent, inconsistent, id) == StateOf(history, id);
        HeldIffSeen(history, id);
      }
      assert |inconsistent| == 0 <==> inconsistent == map[];
      assert |consistent| == 0 <==> consistent == map[];
      if Started(history) {
        var id :| Seen(history, id);
        assert id in consistent || id in inconsistent;
      }
    }

    method AddConsistentResults(source: string, parsedResList: seq<ParseResult>)
      requires Keyed(consistent, inconsistent)
      modifies this`consistent
      ensures Keyed(consistent, inconsistent)
      ensures forall id ::
                ViewOf(consistent, inconsistent, id) ==
                Overwrite(ViewOf(old(consistent), old(inconsistent), id), source, ReportsFor(parsedResList, id))
    {
      for i := 0 to |parsedResList|
        invariant Keyed(consistent, inconsistent)
        invariant forall id ::
                    ViewOf(consistent, inconsistent, id) ==
                    Overwrite(ViewOf(old(consistent), old(inconsistent), id), source,
                              ReportsFor(parsedResList[..i], id))
      {
        var pr := parsedResList[i];
        assert parsedResList[..i + 1][..i] == parsedResList[..i];
        consistent := consistent[pr.id := NewItem(pr, [source])];
      }
      assert parsedResList[..|parsedResList|] == parsedResList;
    }

    method AddInconsistentResult(id: string, pr: ParseResult, sources: seq<string>)
      requires Keyed(consistent, inconsistent) && pr.id == id
      modifies this`inconsistent
      ensures Keyed(consistent, inconsistent)
      ensures var before := ViewOf(old(consistent), old(inconsistent), id);
              ViewOf(consistent, inconsistent, id) ==
              before.(inconsistent := before.inconsistent + [NewItem(pr, sources)])
      ensures forall other | other != id ::
                ViewOf(consistent, inconsistent, other) == ViewOf(old(consistent), old(inconsistent), other)
    {
      if id !in inconsistent {
        inconsistent := inconsistent[id := [NewItem(pr, sources)]];
        return;
      }
      inconsistent := inconsistent[id := inconsistent[id] + [NewItem(pr, sources)]];
    }

    // A later batch: report by report, and then the consistent ids it did not mention.
    method AddParsedResults(source: string, newResults: seq<ParseResult>)
      requires Keyed(consistent, inconsistent)
      modifies this`consistent, this`inconsistent
      ensures Keyed(consistent, inconsistent)
      ensures forall id :: ViewOf(consistent, inconsistent, id) ==
                           Merge(ViewOf(old(consistent), old(inconsistent), id), source, ReportsFor(newResults, id))
    {
      ResetProcessed();
      CompareReports(source, newResults);
      MoveUnprocessed();
    }

    method CompareReports(source: string, newResults: seq<ParseResult>)
      requires Keyed(consistent, inconsistent)
      requires forall id | id in consistent :: !consistent[id].processed
      modifies this`consistent, this`inconsistent
      ensures Keyed(consistent, inconsistent)
      ensures Compared(old(consistent), old(inconsistent), consistent, inconsistent, source, newResults)
    {
      ghost var c, n := consistent, inconsistent;
      for i := 0 to |newResults|
        invariant Keyed(consistent, inconsistent)
        invariant Compared(c, n, consistent, inconsistent, source, newResults[..i])
      {
        ghost var c1, n1 := consistent, inconsistent;
        AddParsedResult(source, newResults[i]);
        ComparedNext(c, n, c1, n1, consistent, inconsistent, source, newResults, i);
      }
      assert newResults[..|newResults|] == newResults;
    }

    method ResetProcessed()
      requires Keyed(consistent, inconsistent)
      modifies this`consistent
      ensures Keyed(consistent, inconsistent)
      ensures forall id :: ViewOf(consistent, inconsistent, id) == ViewOf(old(consistent), old(inconsistent), id)
      ensures forall id | id in consistent :: !consistent[id].processed
    {
      var todo := consistent.Keys;
      while todo != {}
        invariant todo <= consistent.Keys == old(consistent).Keys
        invariant Keyed(consistent, inconsistent)
        invariant forall id :: ViewOf(consistent, inconsistent, id) == ViewOf(old(consistent), old(inconsistent), id)
        invariant forall id | id in consistent && id !in todo :: !consistent[id].processed
        decreases todo
      {
        var id :| id in todo;
        todo := todo - {id};
        consistent := consistent[id := consistent[id].(processed := false)];
      }
    }

    method AddParsedResult(source: string, pr: ParseResult)
      requires Keyed(consistent, inconsistent)
      modifies this`consistent, this`inconsistent
      ensures Keyed(consistent, inconsistent)
      ensures ComparedOne(old(consistent), old(inconsistent), consistent, inconsistent, source, pr)
    {
      if pr.id !in consistent {
        AddInconsistentResult(pr.id, pr, [source]);
        return;
      }
      var item := consistent[pr.id].(processed := true);
      consistent := consistent[pr.id := item];
      assert forall id :: ViewOf(consistent, inconsistent, id) == ViewOf(old(consistent), old(inconsistent), id);
      if !Agrees(item.result, pr) {
        MoveToInconsistent(item);
        AddInconsistentResult(pr.id, pr, [source]);
        return;
      }
      consistent := consistent[pr.id := item.(sources := item.sources + [source])];
    }

    method MoveToInconsistent(item: Item)
      requires Keyed(consistent, inconsistent) && item.result.id in consistent && consistent[item.result.id] == item
      modifies this`consistent, this`inconsistent
      ensures Keyed(consistent, inconsistent)
      ensures ViewOf(consistent, inconsistent, item.result.id) ==
              Untouched(ViewOf(old(consistent), old(inconsistent), item.result.id))
      ensures forall other | other != item.result.id ::
                ViewOf(consistent, inconsistent, other) == ViewOf(old(consistent), old(inconsistent), other)
      ensures consistent == old(consistent) - {item.result.id}
    {
      AddInconsistentResult(item.result.id, item.result, item.sources);
      assert forall other | other != item.result.id ::
          ViewOf(consistent, inconsistent, other) == ViewOf(old(consistent), old(inconsistent), other);
      consistent := consistent - {item.result.id};
    }

    method MoveIfUnprocessed(id: string)
      requires Keyed(consistent, inconsistent) && id in consistent
      modifies this`consistent, this`inconsistent
      ensures Keyed(consistent, inconsistent)
      ensures var before := ViewOf(old(consistent), old(inconsistent), id);
              ViewOf(consistent, inconsistent, id) ==
              if old(consistent)[id].processed then before else Untouched(before)
      ensures forall other | other != id ::
                && ViewOf(consistent, inconsistent, other) == ViewOf(old(consistent), old(inconsistent), other)
                && (other in old(consistent) ==> other in consistent && consistent[other] == old(consistent)[other])
    {
      var item := consistent[id];
      if item.processed {
        return;
      }
      MoveToInconsistent(item);
    }

    // The map loses entries while it is walked; the keys may come in any order.
    method MoveUnprocessed()
      requires Keyed(consistent, inconsistent)
      modifies this`consistent, this`inconsistent
      ensures Keyed(consistent, inconsistent)
      ensures forall id ::
                var before := ViewOf(old(consistent), old(inconsistent), id);
                ViewOf(consistent, inconsistent, id) ==
                if id in old(consistent) && !old(consistent)[id].processed then Untouched(before) else before
    {
      var todo := consistent.Keys;
      while todo != {}
        invariant Keyed(consistent, inconsistent)
        invariant todo <= old(consistent).Keys
        invariant forall id | id in todo :: id in consistent && consistent[id] == old(consistent)[id]
        invariant forall id ::
                    var before := ViewOf(old(consistent), old(inconsistent), id);
                    ViewOf(consistent, inconsistent, id) ==
                    if id !in todo && id in old(consistent) && !old(consistent)[id].processed then Untouched(before)
                    else before
        decreases todo
      {
        var id :| id in todo;
        todo := todo - {id};
        MoveIfUnprocessed(id);
      }
    }

    method ReconcileInconsistentResults()
      requires Keyed(consistent, inconsistent)
      requires forall id | id in inconsistent :: HasChecks(inconsistent[id])
      modifies this`consistent
      ensures Keyed(consistent, inconsistent)
      ensures forall id :: Finished(old(consistent), old(inconsistent), consistent, id)
    {
      ghost var c := consistent;
      var todo := inconsistent.Keys;
      while todo != {}
        invariant todo <= inconsistent.Keys
        invariant Keyed(consistent, inconsistent)
        invariant PartlyFinished(c, inconsistent, consistent, todo)
        decreases todo
      {
        var id :| id in todo;
        ghost var c1, left := consistent, todo;
        todo := todo - {id};
        var items := inconsistent[id];
        var reconciled := ReconcileInconsistentResult(items);
        ghost var item := reconciled;
        if id in consistent {
          reconciled := InBothLists(reconciled);
        }
        consistent := consistent[id := reconciled];
        assert FinalItem(items, id in c1, reconciled) by {
          assert Reconciled(items, item);
        }
        FinishedNext(c, inconsistent, c1, left, id, reconciled);
      }
    }

    // One result per id ever seen.
    method GetConsistentResults() returns (results: seq<Item>)
      requires Keyed(consistent, inconsistent)
      requires forall id | id in inconsistent :: HasChecks(inconsistent[id])
      modifies this`consistent
      ensures Keyed(consistent, inconsistent)
      ensures forall id :: Finished(old(consistent), old(inconsistent), consistent, id)
      ensures forall i | 0 <= i < |results| ::
                results[i].result.id in consistent && consistent[results[i].result.id] == results[i]
      ensures forall i, j | 0 <= i < j < |results| :: results[i].result.id != results[j].result.id
      ensures forall id | id in consistent :: consistent[id] in results
      ensures consistent.Keys == old(consistent).Keys + old(inconsistent).Keys
      ensures old(Valid()) && NodesOnly(history) ==> NodeScanResults(history, consistent)
      ensures old(Valid()) && PlatformOnly(history) ==> PlatformScanResults(history, consistent)
    {
      ReconcileInconsistentResults();
      FinishedKeys(old(consistent), old(inconsistent), consistent);
      if old(Valid()) && NodesOnly(history) {
        AllFinished(history, old(consistent), old(inconsistent), consistent);
      }
      if old(Valid()) && PlatformOnly(history) {
        PlatformFinished(history, old(consistent), old(inconsistent), consistent);
      }
      results := ListItems();
    }

    // The items of a map come in any order.
    method ListItems() returns (results: seq<Item>)
      requires Keyed(consistent, inconsistent)
      ensures forall i | 0 <= i < |results| ::
                results[i].result.id in consistent && consistent[results[i].result.id] == results[i]
      ensures forall i, j | 0 <= i < j < |results| :: results[i].result.id != results[j].result.id
      ensures forall id | id in consistent :: consistent[id] in results
    {
      results := [];
      var todo := consistent.Keys;
      while todo != {}
        invariant todo <= consistent.Keys
        invariant forall i | 0 <= i < |results| ::
                    results[i].result.id in consistent && consistent[results[i].result.id] == results[i]
        invariant forall i | 0 <= i < |results| :: results[i].result.id !in todo
        invariant forall i, j | 0 <= i < j < |results| :: results[i].result.id != results[j].result.id
        invariant forall id | id in consistent && id !in todo :: consistent[id] in results
        decreases todo
      {
        var id :| id in todo;
        todo := todo - {id};
        results := results + [consistent[id]];
      }
    }
  }

  /******* The whole aggregation, from batches to results *******/

  // Two of the nodes' reports of an id came with different lists of remediations. Those that agreed with
  // each other count as one.
  ghost predicate RemediationsDiffer(history: seq<Batch>, id: string) {
    var items := StateOf(history, id).inconsistent;
    exists i, j | 0 <= i < j < |items| :: items[i].result.remediations != items[j].result.remediations
  }

  // The reports of an id that a final result accounts for, and what becomes of its remediations.
  ghost predicate AccountsFor(history: seq<Batch>, id: string, item: Item)
    requires Seen(history, id)
  {
    var reports, earliest := History(history, id), EarliestReport(history, id);
    && item.result.id == id
    && item.inconsistentLabel
    && AllChecked(reports)
    && item.result.check.Some? && earliest.check.Some?
    && item.result.check.value.rest == earliest.check.value.rest
    && item.result.check.value.status == (if RemediationsDiffer(history, id) then Error else Inconsistent)
    && item.result.remediations ==
       (if RemediationsDiffer(history, id) || !CanBeRemediated(reports) then NilList else earliest.remediations)
    && (!RemediationsDiffer(history, id) ==>
          item.annotations.inconsistentSources == Dissent(reports, item.annotations.mostCommon))
  }

  // Whatever was batched, items are held under their own id.
  lemma {:induction false} StoredUnderTheirId(history: seq<Batch>, id: string)
    ensures HeldUnder(id, StateOf(history, id))
  {
    if history == [] {
    } else {
      var earlier, batch := history[..|history| - 1], history[|history| - 1];
      var reports := ReportsFor(batch.results, id);
      StoredUnderTheirId(earlier, id);
      ReportsForMembers(batch.results, id);
      assert forall k | 0 <= k < |reports| :: reports[k] in reports;
      AbsorbHoldsUnder(StateOf(earlier, id), batch.source, reports, id);
    }
  }

  ghost predicate HeldUnder(id: string, st: IdState) {
    (st.consistent.Some? ==> st.consistent.value.result.id == id) && ListedUnder(id, st.inconsistent)
  }

  lemma {:induction false} AbsorbHoldsUnder(st: IdState, source: string, reports: seq<ParseResult>, id: string)
    requires HeldUnder(id, st) && forall k | 0 <= k < |reports| :: reports[k].id == id
    ensures HeldUnder(id, Absorb(st, source, reports))
  {
    if reports == [] {
    } else {
      AbsorbHoldsUnder(st, source, reports[..|reports| - 1], id);
    }
  }

  // Items of nodes differ in more than their checks exactly if their remediations do.
  lemma NodesDifferInRemediations(items: seq<Item>, id: string)
    requires HasChecks(items) && ListedUnder(id, items) && forall i | 0 <= i < |items| :: PlainItem(items[i])
    ensures DifferInCheckOnly(items) <==>
            forall i, j | 0 <= i < j < |items| :: items[i].result.remediations == items[j].result.remediations
  {
    if !DifferInCheckOnly(items) {
      var i :| 0 <= i < |items| && items[i].result.remediations != items[0].result.remediations;
    }
  }

  // For a scan of nodes, whatever was batched: after one final pass over a valid context, an id
  // that all nodes agree on keeps its stored item, and any other id seen gets one result whose
  // annotation lists exactly the reports that differ from the common status: an error without
  // remediations exactly if theirs differ.
  lemma NodeScanOutcome(history: seq<Batch>, id: string, before: IdState)
    requires NodesOnly(history) && Seen(history, id)
    requires before == StateOf(history, id)
    ensures IsConsistent(history, id) ==>
              before == IdState(Some(NewItem(BaseReport(history, id), AgreeingSources(history, id))), [])
    ensures !IsConsistent(history, id) ==>
              && before.consistent.None? && before.inconsistent != []
              && before.inconsistent[0].result == EarliestReport(history, id)
              && (HasChecks(before.inconsistent) ==>
                    forall item | FinalItem(before.inconsistent, false, item) :: AccountsFor(history, id, item))
  {
    ConsistentIffAllAgree(history, id);
    if !IsConsistent(history, id) {
      HeldIffSeen(history, id);
      EarliestReportStandsFirst(history, id);
      ReportsConserved(history, id);
      assert StateLedger(before) == Ledger(before.inconsistent);
      NodesKeepNodeState(history, id);
      StoredUnderTheirId(history, id);
      if HasChecks(before.inconsistent) {
        AllRemediableReports(before.inconsistent);
        NodesDifferInRemediations(before.inconsistent, id);
      }
    }
  }

  // What comes out for an id: the stored item if all nodes agree, and otherwise one that accounts for
  // everything they said.
  ghost predicate NodeScanResult(history: seq<Batch>, id: string, item: Item) {
    Seen(history, id) &&
    if IsConsistent(history, id) then
      && item.result == BaseReport(history, id) && item.sources == AgreeingSources(history, id)
      && item.annotations == Annotations(None, [], None) && !item.inconsistentLabel
    else AccountsFor(history, id, item)
  }

  ghost predicate NodeScanResults(history: seq<Batch>, results: Consistent) {
    forall id :: (id in results <==> Seen(history, id)) && (id in results ==> NodeScanResult(history, id, results[id]))
  }

  lemma FinishedNodeScan(history: seq<Batch>, c: Consistent, n: Inconsistent, c': Consistent, id: string)
    requires NodesOnly(history) && Keyed(c, n) && ViewOf(c, n, id) == StateOf(history, id)
    requires Finished(c, n, c', id) && (id in n ==> HasChecks(n[id]))
    ensures id in c' <==> Seen(history, id)
    ensures id in c' ==> NodeScanResult(history, id, c'[id])
  {
    HeldIffSeen(history, id);
    if Seen(history, id) {
      NodeScanOutcome(history, id, StateOf(history, id));
      ConsistentIffAllAgree(history, id);
      NodesKeepNodeState(history, id);
    }
  }

  lemma AllFinished(history: seq<Batch>, c: Consistent, n: Inconsistent, c': Consistent)
    requires NodesOnly(history) && Keyed(c, n) && forall id :: ViewOf(c, n, id) == StateOf(history, id)
    requires forall id :: Finished(c, n, c', id)
    requires forall id | id in n :: HasChecks(n[id])
    ensures NodeScanResults(history, c')
  {
    forall id
      ensures id in c' <==> Seen(history, id)
      ensures id in c' ==> NodeScanResult(history, id, c'[id])
    {
      assert Finished(c, n, c', id) && ViewOf(c, n, id) == StateOf(history, id);
      FinishedNodeScan(history, c, n, c', id);
    }
  }

  // For a scan of the platform, of each check the latest report.
  ghost predicate PlatformScanResults(history: seq<Batch>, results: Consistent) {
    forall id ::
      && (id in results <==> Seen(history, id))
      && (id in results ==>
            && IsLatest(history, id, results[id].result)
            && results[id].sources == [""]
            && results[id].annotations == Annotations(None, [], None) && !results[id].inconsistentLabel)
  }

  lemma PlatformFinished(history: seq<Batch>, c: Consistent, n: Inconsistent, c': Consistent)
    requires PlatformOnly(history) && Keyed(c, n) && forall id :: ViewOf(c, n, id) == StateOf(history, id)
    requires forall id :: Finished(c, n, c', id)
    ensures PlatformScanResults(history, c')
  {
    forall id
      ensures id in c' <==> Seen(history, id)
      ensures id in c' ==>
                && IsLatest(history, id, c'[id].result) && c'[id].sources == [""]
                && c'[id].annotations == Annotations(None, [], None) && !c'[id].inconsistentLabel
    {
      assert Finished(c, n, c', id) && ViewOf(c, n, id) == StateOf(history, id);
      PlatformKeepsLatest(history, id);
    }
  }

  lemma FinishedKeys(c: Consistent, n: Inconsistent, c': Consistent)
    requires forall id :: Finished(c, n, c', id)
    ensures c'.Keys == c.Keys + n.Keys
  {
    forall id
      ensures id in c' <==> id in c || id in n
    {
      assert Finished(c, n, c', id);
    }
  }

  // Asking for the results a second time spoils them: every inconsistent id is then on both
  // sides and turns into an error, whatever the first answer was.
  lemma SecondCallIsAnError(c: Consistent, n: Inconsistent, c': Consistent, c'': Consistent, id: string)
    requires Finished(c, n, c', id) && Finished(c', n, c'', id) && id in n
    ensures c''[id].result.check.Some? && c''[id].result.check.value.status == Error
    ensures c''[id].annotations.error == Some(FoundInBothLists)
    ensures c''[id].result.remediations == NilList
  {
  }
}
