/** The results a scanner reports for one node: checks, the remediations that go with them,
    and the comparisons that decide whether two nodes reported the same thing. */
module CheckResults {
  import opened Options

  datatype Status = Pass | Fail | Info | Manual | Error | NotApplicable | Inconsistent | NoResult

  // `rest` stands for every field of a check other than its status.
  datatype CheckResult = CheckResult(status: Status, rest: map<string, string>)

  datatype KubeObject = KubeObject(kind: string, content: map<string, string>)

  // `meta` stands for the fields of a remediation other than its current object.
  datatype Remediation = Remediation(obj: KubeObject, meta: map<string, string>)

  // Go tells a nil slice from an empty one, and so do the comparisons below.
  datatype Remediations = NilList | List(items: seq<Remediation>) {
    function Items(): seq<Remediation> {
      if NilList? then [] else items
    }
  }

  datatype ParseResult = ParseResult(id: string, check: Option<CheckResult>, remediations: Remediations)

  // True when the checks are the same.
  predicate DiffChecks(old_: Option<CheckResult>, new_: Option<CheckResult>) {
    if old_.None? then new_.None? else old_ == new_
  }

  // True when the remediations are the same: equal objects in the same order. A nil `old_` is
  // the same only as a nil `new_`, but an empty `old_` is the same as either.
  predicate DiffRemediations(old_: Remediations, new_: Remediations) {
    if old_.NilList? then
      new_.NilList?
    else
      && |old_.Items()| == |new_.Items()|
      && forall i | 0 <= i < |old_.Items()| ::
           && old_.Items()[i].obj.kind == new_.Items()[i].obj.kind
           && old_.Items()[i].obj == new_.Items()[i].obj
  }

  predicate Agrees(base: ParseResult, pr: ParseResult) {
    DiffChecks(base.check, pr.check) && DiffRemediations(base.remediations, pr.remediations)
  }

  // What the comparison looks at once nil and empty lists are identified.
  type Content = (Option<CheckResult>, seq<KubeObject>)

  function Payload(pr: ParseResult): Content {
    (pr.check, Objects(pr.remediations.Items()))
  }

  function Objects(items: seq<Remediation>): (objects: seq<KubeObject>)
    ensures |objects| == |items|
    ensures forall i | 0 <= i < |items| :: objects[i] == items[i].obj
  {
    seq(|items|, i requires 0 <= i < |items| => items[i].obj)
  }

  // Comparing is equality of payloads, except that a nil list rejects an empty one.
  lemma AgreesIsPayloadEquality(base: ParseResult, pr: ParseResult)
    ensures Agrees(base, pr) <==>
            && Payload(base) == Payload(pr)
            && (base.remediations.NilList? ==> pr.remediations.NilList?)
  {
    var old_, new_ := base.remediations.Items(), pr.remediations.Items();
    if Objects(old_) == Objects(new_) {
      assert |Objects(old_)| == |old_| && |Objects(new_)| == |new_|;
      assert forall i | 0 <= i < |old_| :: old_[i].obj == Objects(old_)[i] == Objects(new_)[i] == new_[i].obj;
    } else if |old_| == |new_| {
      var i :| 0 <= i < |old_| && Objects(old_)[i] != Objects(new_)[i];
    }
  }
}
