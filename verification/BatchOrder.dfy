/** Whether the split into consistent and inconsistent ids depends on the order in which the
    nodes' batches are processed: exactly when it does, for every history. */
module BatchOrder {
  import opened CheckResults
  import opened Consistency
  import opened Permutations

  ghost predicate NodeScan(history: seq<Batch>) {
    NodesOnly(history) && forall i | 0 <= i < |history| :: DistinctIds(history[i].results)
  }

  ghost predicate SamePartitionInEveryOrder(history: seq<Batch>, id: string) {
    forall other: seq<Batch> | multiset(other) == multiset(history) ::
      IsConsistent(other, id) <==> IsConsistent(history, id)
  }

  ghost predicate Reported(batch: Batch, id: string) {
    ReportsFor(batch.results, id) != []
  }

  ghost function Report(batch: Batch, id: string): ParseResult
    requires Reported(batch, id)
  {
    ReportsFor(batch.results, id)[0]
  }

  // Every node that reported anything reported this id, and all said the same.
  ghost predicate Unanimous(history: seq<Batch>, id: string) {
    && Started(history)
    && (forall b | b in history && b.results != [] :: Reported(b, id))
    && (forall b, c | b in history && c in history && Reported(b, id) && Reported(c, id) ::
          Payload(Report(b, id)) == Payload(Report(c, id)))
  }

  ghost predicate HasEmptyBatch(history: seq<Batch>) {
    exists b | b in history :: b.results == []
  }

  // Some node gave this id no remediation list at all and another gave it a list.
  ghost predicate MixesNilAndList(history: seq<Batch>, id: string) {
    exists b, c | b in history && c in history && Reported(b, id) && Reported(c, id) ::
      Report(b, id).remediations.NilList? && !Report(c, id).remediations.NilList?
  }

  ghost predicate OrderMatters(history: seq<Batch>, id: string) {
    Unanimous(history, id) && (HasEmptyBatch(history) || MixesNilAndList(history, id))
  }

  // The main result. The code promises one answer for a set of nodes; it keeps that promise for
  // exactly the ids on which order cannot matter.
  lemma PartitionOrderIndependence(history: seq<Batch>, id: string)
    requires NodeScan(history)
    ensures SamePartitionInEveryOrder(history, id) <==> !OrderMatters(history, id)
  {
    if OrderMatters(history, id) {
      var other := OtherOrder(history, id);
      assert IsConsistent(other, id) != IsConsistent(history, id);
    } else {
      forall other: seq<Batch> | multiset(other) == multiset(history)
        ensures IsConsistent(other, id) <==> IsConsistent(history, id)
      {
        OrderKeepsScan(history, other);
        if Unanimous(history, id) {
          UnanimousMembers(history, other, id);
          PlainUnanimityIsConsistent(history, id);
          PlainUnanimityIsConsistent(other, id);
        } else {
          if IsConsistent(history, id) { ConsistentIsUnanimous(history, id); }
          if IsConsistent(other, id) {
            ConsistentIsUnanimous(other, id);
            UnanimousMembers(other, history, id);
          }
        }
      }
    }
  }

  lemma OrderKeepsScan(history: seq<Batch>, other: seq<Batch>)
    requires NodeScan(history) && multiset(other) == multiset(history)
    ensures NodeScan(other)
    ensures forall b :: b in history <==> b in other
  {
    SameMembers(history, other);
    forall i | 0 <= i < |other| ensures other[i].source != "" && DistinctIds(other[i].results) {
      assert other[i] in history;
      var j :| 0 <= j < |history| && history[j] == other[i];
    }
  }

  lemma UnanimousMembers(history: seq<Batch>, other: seq<Batch>, id: string)
    requires forall b :: b in history <==> b in other
    requires Unanimous(history, id)
    ensures Unanimous(other, id)
    ensures HasEmptyBatch(other) <==> HasEmptyBatch(history)
    ensures MixesNilAndList(other, id) <==> MixesNilAndList(history, id)
  {
    var b :| b in history && b.results != [];
    var i :| 0 <= i < |other| && other[i] == b;
  }

  lemma ReportedOnce(batch: Batch, id: string)
    requires DistinctIds(batch.results) && Reported(batch, id)
    ensures ReportsFor(batch.results, id) == [Report(batch, id)]
  {
    DistinctReportedOnce(batch.results, id);
  }

  lemma ReportsAreFromResults(batch: Batch, id: string)
    ensures Reported(batch, id) ==> batch.results != []
  {
  }

  lemma ConsistentIsUnanimous(history: seq<Batch>, id: string)
    requires NodeScan(history) && IsConsistent(history, id)
    ensures Unanimous(history, id)
  {
    var f := First(history);
    var base := BaseReport(history, id);
    ReportedOnce(history[f], id);
    forall b | b in history && b.results != []
      ensures Reported(b, id) && Payload(Report(b, id)) == Payload(base)
    {
      var j :| 0 <= j < |history| && history[j] == b;
      if j > f {
        assert AllAgree(base, ReportsFor(history[j].results, id));
        AgreesIsPayloadEquality(base, Report(b, id));
      }
    }
  }

  // Without an empty batch and without nil beside non-nil lists, unanimity is enough.
  lemma PlainUnanimityIsConsistent(history: seq<Batch>, id: string)
    requires NodeScan(history) && Unanimous(history, id)
    requires !HasEmptyBatch(history) && !MixesNilAndList(history, id)
    ensures IsConsistent(history, id)
  {
    assert history[0] in history;
    LeadByIsConsistent(history, 0, id);
  }

  // Empty batches first, then a batch whose report tolerates all the others.
  lemma LeadByIsConsistent(history: seq<Batch>, f: nat, id: string)
    requires NodeScan(history) && Unanimous(history, id)
    requires f < |history| && history[f].results != []
    requires forall i | 0 <= i < |history| :: history[i].results == [] <==> i < f
    requires Reported(history[f], id)
    requires Report(history[f], id).remediations.NilList? ==>
               forall b | b in history && Reported(b, id) :: Report(b, id).remediations.NilList?
    ensures IsConsistent(history, id)
  {
    FirstIsUnique(history, f);
    ReportedOnce(history[f], id);
    forall j | f < j < |history|
      ensures AllAgree(BaseReport(history, id), ReportsFor(history[j].results, id))
    {
      assert history[j] in history && history[f] in history;
      ReportedOnce(history[j], id);
      AgreesIsPayloadEquality(Report(history[f], id), Report(history[j], id));
    }
  }

  /******* Two orders that disagree *******/

  function Front(history: seq<Batch>, i: nat): (s: seq<Batch>)
    requires i < |history|
    ensures multiset(s) == multiset(history)
  {
    assert history == history[..i] + [history[i]] + history[i + 1..];
    [history[i]] + history[..i] + history[i + 1..]
  }

  function Back(history: seq<Batch>, i: nat): (s: seq<Batch>)
    requires i < |history|
    ensures multiset(s) == multiset(history)
  {
    assert history == history[..i] + [history[i]] + history[i + 1..];
    history[..i] + history[i + 1..] + [history[i]]
  }

  function Empties(history: seq<Batch>): (s: seq<Batch>)
    ensures forall i | 0 <= i < |s| :: s[i].results == []
  {
    if history == [] then []
    else if history[0].results == [] then [history[0]] + Empties(history[1..])
    else Empties(history[1..])
  }

  function NonEmpties(history: seq<Batch>): (s: seq<Batch>)
    ensures forall i | 0 <= i < |s| :: s[i].results != []
    ensures history != [] && history[0].results != [] ==> s != [] && s[0] == history[0]
  {
    if history == [] then []
    else if history[0].results != [] then [history[0]] + NonEmpties(history[1..])
    else NonEmpties(history[1..])
  }

  lemma {:induction false} EmptiesFirstIsAnOrder(history: seq<Batch>)
    ensures multiset(Empties(history) + NonEmpties(history)) == multiset(history)
  {
    if history == [] {
    } else {
      EmptiesFirstIsAnOrder(history[1..]);
      assert history == [history[0]] + history[1..];
    }
  }

  lemma OtherOrder(history: seq<Batch>, id: string) returns (other: seq<Batch>)
    requires NodeScan(history) && OrderMatters(history, id)
    ensures multiset(other) == multiset(history)
    ensures IsConsistent(other, id) != IsConsistent(history, id)
  {
    if IsConsistent(history, id) {
      other := InconsistentOrder(history, id);
    } else {
      other := ConsistentOrder(history, id);
    }
  }

  lemma ConsistentOrder(history: seq<Batch>, id: string) returns (other: seq<Batch>)
    requires NodeScan(history) && Unanimous(history, id)
    ensures multiset(other) == multiset(history)
    ensures IsConsistent(other, id)
  {
    var lead := BestLead(history, id);
    var ordered := Front(history, lead);
    var empties := Empties(ordered);
    other := empties + NonEmpties(ordered);
    EmptiesFirstIsAnOrder(ordered);
    OrderKeepsScan(history, other);
    UnanimousMembers(history, other, id);
    assert other[|empties|] == history[lead];
    assert forall b :: b in other ==> b in history;
    LeadByIsConsistent(other, |empties|, id);
  }

  // A batch to lead with: one that lists remediations if there is one.
  lemma BestLead(history: seq<Batch>, id: string) returns (lead: nat)
    requires NodeScan(history) && Unanimous(history, id)
    ensures lead < |history| && Reported(history[lead], id) && history[lead].results != []
    ensures Report(history[lead], id).remediations.NilList? ==>
              forall b | b in history && Reported(b, id) :: Report(b, id).remediations.NilList?
  {
    if b :| b in history && Reported(b, id) && !Report(b, id).remediations.NilList? {
      lead :| 0 <= lead < |history| && history[lead] == b;
    } else {
      lead :| 0 <= lead < |history| && history[lead].results != [];
      assert history[lead] in history;
    }
    ReportsAreFromResults(history[lead], id);
  }

  lemma InconsistentOrder(history: seq<Batch>, id: string) returns (other: seq<Batch>)
    requires NodeScan(history) && OrderMatters(history, id)
    ensures multiset(other) == multiset(history)
    ensures !IsConsistent(other, id)
  {
    if HasEmptyBatch(history) {
      var i :| 0 <= i < |history| && history[i].results == [];
      other := Back(history, i);
      EmptyLastIsInconsistent(history, i, id);
    } else {
      var b, c :| b in history && c in history && Reported(b, id) && Reported(c, id)
                  && Report(b, id).remediations.NilList? && !Report(c, id).remediations.NilList?;
      var i :| 0 <= i < |history| && history[i] == b;
      other := Front(history, i);
      OrderKeepsScan(history, other);
      NilFirstIsInconsistent(other, c, id);
    }
  }

  lemma EmptyLastIsInconsistent(history: seq<Batch>, i: nat, id: string)
    requires i < |history| && history[i].results == [] && Started(history)
    ensures !IsConsistent(Back(history, i), id)
  {
    var other := Back(history, i);
    var k :| 0 <= k < |history| && history[k].results != [];
    var k' := if k < i then k else k - 1;
    assert other[k'] == history[k];
    assert other[|other| - 1] == history[i];
    assert First(other) <= k' < |other| - 1;
    assert ReportsFor(other[|other| - 1].results, id) == [];
  }

  lemma NilFirstIsInconsistent(history: seq<Batch>, c: Batch, id: string)
    requires NodeScan(history) && history != [] && Reported(history[0], id)
    requires Report(history[0], id).remediations.NilList?
    requires c in history && Reported(c, id) && !Report(c, id).remediations.NilList?
    ensures !IsConsistent(history, id)
  {
    ReportsAreFromResults(history[0], id);
    FirstIsUnique(history, 0);
    ReportedOnce(history[0], id);
    ReportedOnce(c, id);
    var j :| 0 <= j < |history| && history[j] == c;
    assert !Agrees(BaseReport(history, id), ReportsFor(history[j].results, id)[0]);
  }
}
