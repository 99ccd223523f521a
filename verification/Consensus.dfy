/** How an inconsistent id is turned into one result: the most common status, the 60% threshold,
    and the annotation that lists the dissenting sources. */
module Consensus {
  import opened Options
  import opened CheckResults
  import opened Consistency

  ghost predicate HasChecks(items: seq<Item>) {
    forall i | 0 <= i < |items| :: items[i].result.check.Some?
  }

  function StatusOf(item: Item): Status
    requires item.result.check.Some?
  {
    item.result.check.value.status
  }

  // How many sources report a status.
  function CountOf(items: seq<Item>, s: Status): nat
    requires forall i | 0 <= i < |items| :: items[i].result.check.Some?
  {
    if items == [] then 0
    else
      var init, last := items[..|items| - 1], items[|items| - 1];
      CountOf(init, s) + (if StatusOf(last) == s then |last.sources| else 0)
  }

  function TotalSources(items: seq<Item>): nat {
    if items == [] then 0 else TotalSources(items[..|items| - 1]) + |items[|items| - 1].sources|
  }

  function Max(a: nat, b: nat): nat {
    if a < b then b else a
  }

  ghost predicate IsMaxCount(items: seq<Item>, m: nat)
    requires HasChecks(items)
  {
    (forall s :: CountOf(items, s) <= m) && exists s :: CountOf(items, s) == m
  }

  ghost function MaxCount(items: seq<Item>): (m: nat)
    requires HasChecks(items)
    ensures IsMaxCount(items, m)
  {
    MaxCountExists(items);
    var m: nat :| IsMaxCount(items, m);
    m
  }

  lemma MaxCountExists(items: seq<Item>)
    requires HasChecks(items)
    ensures exists m: nat :: IsMaxCount(items, m)
  {
    var statuses := [Pass, Fail, Info, Manual, Error, NotApplicable, Inconsistent, NoResult];
    var best := Pass;
    for i := 0 to |statuses|
      invariant forall k | 0 <= k < i :: CountOf(items, statuses[k]) <= CountOf(items, best)
    {
      if CountOf(items, statuses[i]) > CountOf(items, best) {
        best := statuses[i];
      }
    }
    var m := CountOf(items, best);
    forall s
      ensures CountOf(items, s) <= m
    {
      assert statuses[0] == Pass && statuses[1] == Fail && statuses[2] == Info && statuses[3] == Manual;
      assert statuses[4] == Error && statuses[5] == NotApplicable;
      assert statuses[6] == Inconsistent && statuses[7] == NoResult;
    }
    assert IsMaxCount(items, m);
  }

  // Three fifths of n, rounded up.
  function Required(n: nat): nat {
    (3 * n + 4) / 5
  }

  // The largest count is at least 60% of the number of items.
  ghost predicate HasCommonState(items: seq<Item>)
    requires HasChecks(items)
  {
    5 * MaxCount(items) >= 3 * |items|
  }

  method CountStatuses(items: seq<Item>) returns (counter: map<Status, nat>)
    requires HasChecks(items)
    ensures forall s :: CountOf(items, s) == if s in counter then counter[s] else 0
  {
    counter := map[];
    for i := 0 to |items|
      invariant forall s :: CountOf(items[..i], s) == if s in counter then counter[s] else 0
    {
      var s := StatusOf(items[i]);
      assert items[..i + 1][..i] == items[..i];
      counter := counter[s := (if s in counter then counter[s] else 0) + |items[i].sources|];
    }
    assert items[..|items|] == items;
  }

  // Whatever order the status counters are visited in, the flag is the same and the status is
  // one that no other outnumbers.
  method MostCommonState(items: seq<Item>) returns (state: Status, hasCommonState: bool)
    requires HasChecks(items)
    ensures hasCommonState <==> HasCommonState(items)
    ensures CountOf(items, state) == MaxCount(items)
    ensures MaxCount(items) == 0 ==> state == Error
  {
    var counter := CountStatuses(items);
    state := Error;
    var count: nat := 0;
    var todo := counter.Keys;
    while todo != {}
      invariant todo <= counter.Keys
      invariant forall s | s in counter && s !in todo :: counter[s] <= count
      invariant count == 0 ==> state == Error
      invariant count > 0 ==> CountOf(items, state) == count
      decreases todo
    {
      var s :| s in todo;
      todo := todo - {s};
      if counter[s] > count {
        state, count := s, counter[s];
      }
    }
    assert exists s :: CountOf(items, s) == count by {
      assert CountOf(items, state) == count;
    }
    assert IsMaxCount(items, count);
    hasCommonState := count >= Required(|items|);
  }

  /******* The inconsistent-source annotation *******/

  ghost predicate AllChecked(reports: seq<Report>) {
    forall i | 0 <= i < |reports| :: reports[i].1.0.Some?
  }

  // The reports whose status is not the common one, in order; all of them if there is none.
  function Dissent(reports: seq<Report>, common: Option<Status>): seq<(string, Status)>
    requires forall i | 0 <= i < |reports| :: reports[i].1.0.Some?
  {
    if reports == [] then []
    else
      var init, last := reports[..|reports| - 1], reports[|reports| - 1];
      var status := last.1.0.value.status;
      Dissent(init, common) + (if common == Some(status) then [] else [(last.0, status)])
  }

  lemma {:induction false} LedgerChecked(items: seq<Item>)
    requires HasChecks(items)
    ensures AllChecked(Ledger(items))
  {
    if items == [] {
    } else {
      LedgerChecked(items[..|items| - 1]);
    }
  }

  lemma {:induction false} DissentConcat(reports: seq<Report>, more: seq<Report>, common: Option<Status>)
    requires AllChecked(reports) && AllChecked(more)
    ensures AllChecked(reports + more)
    ensures Dissent(reports + more, common) == Dissent(reports, common) + Dissent(more, common)
  {
    if more == [] {
      assert reports + more == reports;
    } else {
      var init := more[..|more| - 1];
      DissentConcat(reports, init, common);
      assert (reports + more)[..|reports + more| - 1] == reports + init;
    }
  }

  function Labelled(sources: seq<string>, status: Status): seq<(string, Status)> {
    seq(|sources|, i requires 0 <= i < |sources| => (sources[i], status))
  }

  lemma {:induction false} DissentOfSources(sources: seq<string>, content: Content, common: Option<Status>)
    requires content.0.Some?
    ensures var status := content.0.value.status;
            Dissent(SourceReports(sources, content), common) ==
            if common == Some(status) then [] else Labelled(sources, status)
  {
    if sources == [] {
    } else {
      var init := sources[..|sources| - 1];
      DissentOfSources(init, content, common);
      assert SourceReports(sources, content)[..|sources| - 1] == SourceReports(init, content);
      assert forall status :: Labelled(sources, status) == Labelled(init, status) + [(sources[|sources| - 1], status)];
    }
  }

  // Statuses that still allow remediations to be created.
  predicate AllRemediable(items: seq<Item>)
    requires forall i | 0 <= i < |items| :: items[i].result.check.Some?
  {
    forall i | 0 <= i < |items| ::
      var status := items[i].result.check.value.status;
      status == Pass || status == Fail || status == Info
  }

  method AppendSources(pairs: seq<(string, Status)>, sources: seq<string>, status: Status)
    returns (all: seq<(string, Status)>)
    ensures all == pairs + Labelled(sources, status)
  {
    all := pairs;
    for j := 0 to |sources|
      invariant all == pairs + Labelled(sources[..j], status)
    {
      all := all + [(sources[j], status)];
    }
    assert sources[..|sources|] == sources;
  }

  // The annotation and the remediation flag after some of the items.
  ghost predicate Annotated(done: seq<Item>, common: Option<Status>, pairs: seq<(string, Status)>,
                            createRemediation: bool)
  {
    && HasChecks(done)
    && AllChecked(Ledger(done))
    && pairs == Dissent(Ledger(done), common)
    && (createRemediation <==> AllRemediable(done))
  }

  // What one item adds: nothing if it has the common status, and otherwise each of its sources
  // with its status.
  method AnnotateItem(pairs: seq<(string, Status)>, createRemediation: bool, ghost done: seq<Item>, item: Item,
                      common: Option<Status>)
    returns (pairs': seq<(string, Status)>, createRemediation': bool)
    requires Annotated(done, common, pairs, createRemediation) && item.result.check.Some?
    ensures Annotated(done + [item], common, pairs', createRemediation')
  {
    AnnotatedNext(done, item, common, pairs, createRemediation);
    createRemediation' := createRemediation;
    match StatusOf(item) {
      case Fail =>
      case Pass =>
      case Info =>
      case _ => createRemediation' := false;
    }
    pairs' := pairs;
    if common != Some(StatusOf(item)) {
      pairs' := AppendSources(pairs, item.sources, StatusOf(item));
    }
  }

  lemma AnnotatedNext(done: seq<Item>, item: Item, common: Option<Status>, pairs: seq<(string, Status)>,
                      createRemediation: bool)
    requires Annotated(done, common, pairs, createRemediation) && item.result.check.Some?
    ensures var status := StatusOf(item);
            Annotated(done + [item], common,
                      pairs + if common == Some(status) then [] else Labelled(item.sources, status),
                      createRemediation && (status == Pass || status == Fail || status == Info))
  {
    DissentGrows(done, item, common);
    DissentOfSources(item.sources, Payload(item.result), common);
    RemediableNext(done, item);
  }

  lemma RemediableNext(done: seq<Item>, item: Item)
    requires HasChecks(done) && item.result.check.Some?
    ensures HasChecks(done + [item])
    ensures var status := item.result.check.value.status;
            AllRemediable(done + [item]) <==>
            AllRemediable(done) && (status == Pass || status == Fail || status == Info)
  {
    var after := done + [item];
    assert after[|done|] == item && forall i | 0 <= i < |done| :: after[i] == done[i];
    assert forall i | 0 <= i < |after| :: after[i] == if i < |done| then done[i] else item;
  }

  lemma DissentGrows(done: seq<Item>, item: Item, common: Option<Status>)
    requires AllChecked(Ledger(done)) && item.result.check.Some?
    ensures AllChecked(Ledger(done + [item]))
    ensures Dissent(Ledger(done + [item]), common) == Dissent(Ledger(done), common) + Dissent(ItemReports(item), common)
  {
    LedgerAppend(done, item);
    DissentConcat(Ledger(done), ItemReports(item), common);
  }

  // One pass over the items, with the common status already decided.
  method AnnotateItems(items: seq<Item>, common: Option<Status>)
    returns (pairs: seq<(string, Status)>, createRemediation: bool)
    requires HasChecks(items)
    ensures Annotated(items, common, pairs, createRemediation)
  {
    createRemediation := true;
    pairs := [];
    for i := 0 to |items|
      invariant Annotated(items[..i], common, pairs, createRemediation)
    {
      assert items[..i + 1] == items[..i] + [items[i]];
      pairs, createRemediation := AnnotateItem(pairs, createRemediation, items[..i], items[i], common);
    }
    assert items[..|items|] == items;
  }

  method AnnotateInconsistentStatuses(items: seq<Item>) returns (annotations: Annotations, createRemediation: bool)
    requires HasChecks(items)
    ensures AllChecked(Ledger(items))
    ensures annotations.error == None
    ensures annotations.mostCommon.Some? <==> HasCommonState(items)
    ensures annotations.mostCommon.Some? ==> CountOf(items, annotations.mostCommon.value) == MaxCount(items)
    ensures annotations.inconsistentSources == Dissent(Ledger(items), annotations.mostCommon)
    ensures createRemediation <==> AllRemediable(items)
  {
    var state, hasCommonState := MostCommonState(items);
    var common := if hasCommonState then Some(state) else None;
    var pairs, create := AnnotateItems(items, common);
    annotations, createRemediation := Annotations(None, pairs, common), create;
  }

  /******* The single result that stands for an inconsistent id *******/

  // All items say the same but for the contents of their checks and where they come from.
  predicate DifferInCheckOnly(items: seq<Item>) {
    forall i | 0 <= i < |items| ::
      && items[i].result.id == items[0].result.id
      && items[i].result.remediations == items[0].result.remediations
      && (items[i].result.check.None? <==> items[0].result.check.None?)
      && items[i].annotations == items[0].annotations
      && items[i].inconsistentLabel == items[0].inconsistentLabel
  }

  // Compares all items with the first, up to one that differs.
  method DiffersExceptStatus(items: seq<Item>) returns (different: bool)
    ensures different <==> !DifferInCheckOnly(items)
  {
    if |items| < 2 {
      return false;
    }
    var base := items[0];
    for i := 1 to |items|
      invariant DifferInCheckOnly(items[..i])
    {
      var item := items[i];
      assert items[..i + 1] == items[..i] + [item];
      if || item.result.id != base.result.id || item.result.remediations != base.result.remediations
         || item.result.check.None? != base.result.check.None?
         || item.annotations != base.annotations || item.inconsistentLabel != base.inconsistentLabel
      {
        return true;
      }
    }
    assert items[..|items|] == items;
    return false;
  }

  ghost predicate Reconciled(items: seq<Item>, item: Item) {
    && items != [] && HasChecks(items) && AllChecked(Ledger(items))
    && var first := items[0].result;
    && item.result.id == first.id
    && item.inconsistentLabel
    && item.sources == []
    && item.result.check.Some? && item.result.check.value.rest == first.check.value.rest
    && if !DifferInCheckOnly(items) then
         && item.result.check.value.status == Error
         && item.result.remediations == NilList
         && item.annotations == Annotations(Some(DifferInMoreThanStatus), [], None)
       else
         && item.result.check.value.status == Inconsistent
         && item.annotations.error == None
         && (item.annotations.mostCommon.Some? <==> HasCommonState(items))
         && (item.annotations.mostCommon.Some? ==> CountOf(items, item.annotations.mostCommon.value) == MaxCount(items))
         && item.annotations.inconsistentSources == Dissent(Ledger(items), item.annotations.mostCommon)
         && item.result.remediations ==
            if AllRemediable(items) then first.remediations else NilList
  }

  method ReconcileInconsistentResult(items: seq<Item>) returns (item: Item)
    requires items != [] && HasChecks(items)
    ensures Reconciled(items, item)
  {
    LedgerChecked(items);
    var first := items[0].result;
    var check := first.check.value;
    var isDifferent := DiffersExceptStatus(items);
    if isDifferent {
      item := Item(ParseResult(first.id, Some(check.(status := Error)), NilList),
                   Annotations(Some(DifferInMoreThanStatus), [], None), true, [], false);
    } else {
      var annotations, createRemediation := AnnotateInconsistentStatuses(items);
      item := Item(ParseResult(first.id, Some(check.(status := Inconsistent)),
                               if createRemediation then first.remediations else NilList),
                   annotations, true, [], false);
    }
  }

  // Every report has a status that can be remediated.
  ghost predicate CanBeRemediated(reports: seq<Report>)
    requires AllChecked(reports)
  {
    forall k | 0 <= k < |reports| ::
      var status := reports[k].1.0.value.status;
      status == Pass || status == Fail || status == Info
  }

  lemma RemediatedConcat(reports: seq<Report>, more: seq<Report>)
    requires AllChecked(reports) && AllChecked(more)
    ensures AllChecked(reports + more)
    ensures CanBeRemediated(reports + more) <==> CanBeRemediated(reports) && CanBeRemediated(more)
  {
    var all := reports + more;
    assert forall k | 0 <= k < |reports| :: all[k] == reports[k];
    assert forall k | 0 <= k < |more| :: all[|reports| + k] == more[k];
  }

  // Every item has a source, so the reports can be remediated exactly if the items can.
  lemma {:induction false} AllRemediableReports(items: seq<Item>)
    requires HasChecks(items) && forall i | 0 <= i < |items| :: items[i].sources != []
    ensures AllChecked(Ledger(items)) && (AllRemediable(items) <==> CanBeRemediated(Ledger(items)))
  {
    if items == [] {
    } else {
      var init, last := items[..|items| - 1], items[|items| - 1];
      var reports := ItemReports(last);
      AllRemediableReports(init);
      LedgerChecked(items);
      assert reports[0].1.0.value.status == StatusOf(last);
      RemediatedConcat(Ledger(init), reports);
      assert items == init + [last];
    }
  }

  /******* The threshold counts items, not nodes *******/

  lemma {:induction false} TwoCounts(items: seq<Item>, s: Status, t: Status)
    requires HasChecks(items) && s != t
    ensures CountOf(items, s) + CountOf(items, t) <= TotalSources(items)
  {
    if items == [] {
    } else {
      TwoCounts(items[..|items| - 1], s, t);
    }
  }

  // A status reported by most sources is the only possible outcome.
  lemma MajorityIsUnique(items: seq<Item>, s: Status, t: Status)
    requires HasChecks(items) && 2 * MaxCount(items) > TotalSources(items)
    requires CountOf(items, s) == MaxCount(items) && CountOf(items, t) == MaxCount(items)
    ensures s == t
  {
    if s != t {
      TwoCounts(items, s, t);
    }
  }

  lemma {:induction false} OneSourceEach(items: seq<Item>)
    requires forall i | 0 <= i < |items| :: |items[i].sources| == 1
    ensures TotalSources(items) == |items|
  {
    if items == [] {
    } else {
      OneSourceEach(items[..|items| - 1]);
    }
  }

  // When each item has one source, a reported status is a strict majority, so it is the only
  // possible outcome whatever the iteration order, and at least 60% of the sources agree on it.
  lemma OneSourceEachIsDeterministic(items: seq<Item>, s: Status, t: Status)
    requires items != [] && HasChecks(items)
    requires forall i | 0 <= i < |items| :: |items[i].sources| == 1
    requires HasCommonState(items)
    requires CountOf(items, s) == MaxCount(items) && CountOf(items, t) == MaxCount(items)
    ensures s == t
    ensures 5 * CountOf(items, s) >= 3 * TotalSources(items)
    ensures 2 * CountOf(items, s) > TotalSources(items)
  {
    OneSourceEach(items);
    MajorityIsUnique(items, s, t);
  }

  // The documented promise: at least 60% of the sources agree.
  ghost predicate DocumentedCommonState(items: seq<Item>)
    requires HasChecks(items)
  {
    5 * MaxCount(items) >= 3 * TotalSources(items)
  }

  // n items, the first of them agreed on by k sources: what node batches leave behind.
  ghost predicate HasShape(items: seq<Item>, n: nat, k: nat) {
    && 0 < n == |items| && HasChecks(items)
    && |items[0].sources| == k
    && OneSourceAfterFirst(items)
  }

  lemma {:induction false} ShapeTotal(items: seq<Item>, n: nat, k: nat)
    requires HasShape(items, n, k)
    ensures TotalSources(items) == n + k - 1
  {
    if n > 1 {
      ShapeTotal(items[..n - 1], n - 1, k);
    } else {
      assert items[..0] == [];
    }
  }

  lemma {:induction false} FirstCounts(items: seq<Item>, n: nat, k: nat)
    requires HasShape(items, n, k)
    ensures CountOf(items, StatusOf(items[0])) >= k
  {
    if n > 1 {
      FirstCounts(items[..n - 1], n - 1, k);
    } else {
      assert items[..0] == [];
    }
  }

  // The code keeps the documented promise, whatever the nodes report, for exactly the shapes on
  // which the two thresholds coincide or the first item alone already passes both.
  lemma ThresholdMeetsDocumentation(n: nat, k: nat)
    requires n > 0 && k > 0
    ensures (forall items | HasShape(items, n, k) :: HasCommonState(items) <==> DocumentedCommonState(items))
            <==> Required(n) == Required(n + k - 1) || k >= Required(n + k - 1)
  {
    if Required(n) == Required(n + k - 1) || k >= Required(n + k - 1) {
      forall items | HasShape(items, n, k) ensures HasCommonState(items) <==> DocumentedCommonState(items) {
        ShapeTotal(items, n, k);
        FirstCounts(items, n, k);
      }
    } else {
      var items := ThresholdGap(n, k);
      assert HasCommonState(items) && !DocumentedCommonState(items);
    }
  }

  // Between the two thresholds: reported as common, but by fewer than 60% of the sources.
  lemma ThresholdGap(n: nat, k: nat) returns (items: seq<Item>)
    requires n > 0 && Required(n) < Required(n + k - 1) && 0 < k < Required(n + k - 1)
    ensures HasShape(items, n, k) && HasCommonState(items) && !DocumentedCommonState(items)
  {
    var m := Max(k, Required(n));
    items := Passing(k, m - k) + Alternating(n - 1 - (m - k));
    GapCounts(items, n, k, m);
    assert HasShape(items, n, k);
    ShapeTotal(items, n, k);
  }

  lemma GapCounts(items: seq<Item>, n: nat, k: nat, m: nat)
    requires n > 0 && 0 < k <= m < n + k && n <= 2 * m + 1
    requires items == Passing(k, m - k) + Alternating(n - 1 - (m - k))
    ensures HasChecks(items) && MaxCount(items) == m
  {
    var others := n - 1 - (m - k);
    forall s
      ensures CountOf(items, s) <= m
    {
      GapCount(k, m - k, others, m, s);
    }
    GapCount(k, m - k, others, m, Pass);
    MaxCountIs(items, Pass, m);
  }

  lemma MaxCountIs(items: seq<Item>, s: Status, m: nat)
    requires HasChecks(items) && CountOf(items, s) == m && forall t :: CountOf(items, t) <= m
    ensures MaxCount(items) == m
  {
    assert IsMaxCount(items, m);
  }

  // PASS counts for all of the first items, and no other status for more than half of the rest.
  lemma GapCount(k: nat, more: nat, others: nat, m: nat, s: Status)
    requires k + more == m && others <= 2 * m
    ensures var items := Passing(k, more) + Alternating(others);
            CountOf(items, s) <= m && (s == Pass ==> CountOf(items, s) == m)
  {
    PassingCount(k, more, s);
    AlternatingCount(others, s);
    CountConcat(Passing(k, more), Alternating(others), s);
    AlternatedHalf(others, s);
  }

  function Reporting(s: Status, sources: nat): Item {
    NewItem(ParseResult("check", Some(CheckResult(s, map[])), NilList), Repeat("node", sources))
  }

  // One item with k passing sources and `more` items with one each.
  function Passing(k: nat, more: nat): (items: seq<Item>)
    ensures |items| == more + 1 && HasChecks(items)
    ensures items[0] == Reporting(Pass, k) && OneSourceAfterFirst(items)
  {
    if more == 0 then [Reporting(Pass, k)] else Passing(k, more - 1) + [Reporting(Pass, 1)]
  }

  lemma {:induction false} PassingCount(k: nat, more: nat, s: Status)
    ensures CountOf(Passing(k, more), s) == if s == Pass then k + more else 0
  {
    var items := Passing(k, more);
    if more > 0 {
      PassingCount(k, more - 1, s);
      assert items[..|items| - 1] == Passing(k, more - 1);
    } else {
      assert items[..0] == [];
    }
  }

  function Alternating(n: nat): (items: seq<Item>)
    ensures |items| == n && HasChecks(items)
    ensures forall i | 0 <= i < n :: |items[i].sources| == 1
  {
    if n == 0 then [] else Alternating(n - 1) + [Reporting(if n % 2 == 0 then Fail else Info, 1)]
  }

  function Alternated(n: nat, s: Status): nat {
    if n == 0 then 0 else Alternated(n - 1, s) + if s == (if n % 2 == 0 then Fail else Info) then 1 else 0
  }

  lemma {:induction false} AlternatedHalf(n: nat, s: Status)
    ensures s == Pass ==> Alternated(n, s) == 0
    ensures 2 * Alternated(n, s) <= if s == Fail then n - n % 2 else n + n % 2
  {
    if n == 0 {
    } else {
      AlternatedHalf(n - 1, s);
    }
  }

  lemma {:induction false} AlternatingCount(n: nat, s: Status)
    ensures CountOf(Alternating(n), s) == Alternated(n, s)
  {
    if n == 0 {
    } else {
      AlternatingCount(n - 1, s);
      CountAppend(Alternating(n - 1), Reporting(if n % 2 == 0 then Fail else Info, 1), s);
    }
  }

  lemma {:induction false} CountConcat(items: seq<Item>, more: seq<Item>, s: Status)
    requires HasChecks(items) && HasChecks(more)
    ensures CountOf(items + more, s) == CountOf(items, s) + CountOf(more, s)
  {
    if more == [] {
      assert items + more == items;
    } else {
      CountConcat(items, more[..|more| - 1], s);
      assert (items + more)[..|items + more| - 1] == items + more[..|more| - 1];
    }
  }

  // Four nodes report PASS, PASS, FAIL, FAIL: a tie, half of the nodes each way, and yet PASS or
  // FAIL is announced as the status at least 60% of them share.
  lemma FourNodesTie(history: seq<Batch>)
    requires history == [Node("n1", Pass), Node("n2", Pass), Node("n3", Fail), Node("n4", Fail)]
    ensures var items := StateOf(history, "c").inconsistent;
            && |items| == 3 && HasChecks(items)
            && HasCommonState(items) && !DocumentedCommonState(items)
            && CountOf(items, Pass) == MaxCount(items) == CountOf(items, Fail)
  {
    FourNodesState(history);
    var items := StateOf(history, "c").inconsistent;
    FourNodesCounts(items);
  }

  lemma FourNodesCounts(items: seq<Item>)
    requires items == [NewItem(Check(Pass), ["n1", "n2"]), NewItem(Check(Fail), ["n3"]), NewItem(Check(Fail), ["n4"])]
    ensures CountOf(items, Pass) == MaxCount(items) == CountOf(items, Fail)
    ensures HasCommonState(items) && !DocumentedCommonState(items)
  {
    var one := [items[0]];
    var two := one + [items[1]];
    assert items == two + [items[2]];
    assert one == [] + [items[0]];
    forall s
      ensures CountOf(items, s) == if s == Pass || s == Fail then 2 else 0
    {
      CountAppend([], items[0], s);
      CountAppend(one, items[1], s);
      CountAppend(two, items[2], s);
    }
    assert CountOf(items, Pass) == 2 && IsMaxCount(items, 2);
    ShapeTotal(items, 3, 2);
  }

  lemma CountAppend(items: seq<Item>, item: Item, s: Status)
    requires HasChecks(items) && item.result.check.Some?
    ensures HasChecks(items + [item])
    ensures CountOf(items + [item], s) == CountOf(items, s) + if StatusOf(item) == s then |item.sources| else 0
  {
    assert (items + [item])[..|items|] == items;
  }

  lemma {:induction false} FourNodesState(history: seq<Batch>)
    requires history == [Node("n1", Pass), Node("n2", Pass), Node("n3", Fail), Node("n4", Fail)]
    ensures StateOf(history, "c") ==
            IdState(None, [NewItem(Check(Pass), ["n1", "n2"]), NewItem(Check(Fail), ["n3"]),
                           NewItem(Check(Fail), ["n4"])])
  {
    var one := [Node("n1", Pass)];
    var two := one + [Node("n2", Pass)];
    var three := two + [Node("n3", Fail)];
    assert history == three + [Node("n4", Fail)];
    NodeStep(one, "n2", Pass);
    NodeStep(two, "n3", Fail);
    NodeStep(three, "n4", Fail);
    AbsorbNodes();
  }

  lemma {:induction false} AbsorbNodes()
    ensures AbsorbOne(AbsorbOne(AbsorbOne(IdState(Some(NewItem(Check(Pass), ["n1"])), []), "n2", Check(Pass)),
                                "n3", Check(Fail)), "n4", Check(Fail)) ==
            IdState(None, [NewItem(Check(Pass), ["n1", "n2"]), NewItem(Check(Fail), ["n3"]),
                           NewItem(Check(Fail), ["n4"])])
  {
    assert ["n1"] + ["n2"] == ["n1", "n2"];
  }

  lemma {:induction false} NodeStep(earlier: seq<Batch>, source: string, s: Status)
    requires earlier != [] && earlier[0].results != [] && source != ""
    ensures StateOf(earlier + [Node(source, s)], "c") == AbsorbOne(StateOf(earlier, "c"), source, Check(s))
  {
    assert (earlier + [Node(source, s)])[..|earlier|] == earlier;
    assert [Check(s)][..0] == [] && ReportsFor([Check(s)], "c") == [Check(s)];
    assert Absorb(StateOf(earlier, "c"), source, []) == StateOf(earlier, "c");
  }

  function Check(s: Status): ParseResult {
    ParseResult("c", Some(CheckResult(s, map[])), NilList)
  }

  function Node(source: string, s: Status): Batch {
    Batch(source, [Check(s)])
  }
}
