/** The remediation controller at work: it creates, patches and deletes the objects of
    remediations, sets the decisions of their families, and reports what became of it. */
module RemediationController {
  import opened Options
  import opened Remediations
  import opened RemediationFamilies

  /******* Objects in the cluster *******/

  datatype Key = Key(kind: Kind, name: string)

  type Objects = map<Key, KubeObject>

  function KeyOf(payload: KubeObject): Key {
    Key(payload.kind, payload.name)
  }

  const CREATED_BY_OPERATOR := "compliance.openshift.io/remediation"

  predicate Marked(o: KubeObject) {
    o.annotations.Some? && CREATED_BY_OPERATOR in o.annotations.value
  }

  function AddRemediationAnnotation(o: KubeObject): (o': KubeObject)
    ensures Marked(o') && o'.content == o.content && KeyOf(o') == KeyOf(o)
  {
    var annotations := if o.annotations.Some? then o.annotations.value else map[];
    o.(annotations := Some(annotations[CREATED_BY_OPERATOR := ""]))
  }

  // A merge patch overrides what it mentions and keeps the rest.
  function Merge(found: KubeObject, patch: KubeObject): KubeObject {
    var annotations := if found.annotations.Some? then found.annotations.value else map[];
    found.(content := found.content + patch.content,
           annotations := if patch.annotations.None? then found.annotations
                          else Some(annotations + patch.annotations.value))
  }

  function After(objects: Objects, op: Operation): Objects {
    var key := KeyOf(op.payload);
    match op
    case Put(payload) =>
      objects[key := if key in objects then Merge(objects[key], payload) else AddRemediationAnnotation(payload)]
    case Remove(payload) =>
      if key in objects && !payload.kind.KubeletConfig? && Marked(objects[key]) then objects - {key} else objects
  }

  // All the operations that a controller did, in order.
  function Play(objects: Objects, done: seq<Operation>): Objects {
    if done == [] then objects else After(Play(objects, done[..|done| - 1]), done[|done| - 1])
  }

  // The annotation by which the operator knows what it has created.
  predicate HasMark(o: KubeObject) {
    o.annotations.Some? && "compliance.openshift.io/remediation" in o.annotations.value
  }

  lemma GoneExactlyWhen(objects: Objects, op: Operation, key: Key)
    requires key in objects
    ensures key !in After(objects, op) <==>
            && op.Remove? && op.payload.kind == key.kind && op.payload.name == key.name && !key.kind.KubeletConfig?
            && HasMark(objects[key])
    ensures key in After(objects, op) ==>
              (HasMark(After(objects, op)[key]) <==>
               || HasMark(objects[key])
               || (op.Put? && op.payload.kind == key.kind && op.payload.name == key.name && HasMark(op.payload)))
  {
  }

  lemma {:induction false} KubeletConfigsStay(objects: Objects, done: seq<Operation>, key: Key)
    requires key in objects && key.kind.KubeletConfig?
    ensures key in Play(objects, done)
  {
    if done == [] {
    } else {
      KubeletConfigsStay(objects, done[..|done| - 1], key);
    }
  }

  predicate NeverMarks(done: seq<Operation>, key: Key) {
    forall op | op in done && op.Put? && KeyOf(op.payload) == key :: !HasMark(op.payload)
  }

  // An object that was there without the operator's mark is never deleted, unless a remediation
  // itself carries the mark.
  lemma {:induction false} ForeignObjectsStay(objects: Objects, done: seq<Operation>, key: Key)
    requires key in objects && !HasMark(objects[key]) && NeverMarks(done, key)
    ensures key in Play(objects, done) && !HasMark(Play(objects, done)[key])
  {
    if done == [] {
    } else {
      var init, last := done[..|done| - 1], done[|done| - 1];
      assert done == init + [last];
      ForeignObjectsStay(objects, init, key);
      GoneExactlyWhen(Play(objects, init), last, key);
    }
  }

  ghost predicate StaysWhateverIsDone(objects: Objects, payload: KubeObject) {
    forall done: seq<Operation> | forall op | op in done :: op.payload == payload ::
      KeyOf(payload) in Play(objects, done)
  }

  // The mark on the remediation is the only way for it to lose a foreign object.
  lemma {:induction false} ForeignObjectStaysExactlyWhen(objects: Objects, payload: KubeObject)
    requires KeyOf(payload) in objects && !HasMark(objects[KeyOf(payload)])
    ensures StaysWhateverIsDone(objects, payload) <==> payload.kind.KubeletConfig? || !HasMark(payload)
  {
    var key := KeyOf(payload);
    if payload.kind.KubeletConfig? || !HasMark(payload) {
      forall done: seq<Operation> | forall op | op in done :: op.payload == payload
        ensures key in Play(objects, done)
      {
        if payload.kind.KubeletConfig? {
          KubeletConfigsStay(objects, done, key);
        } else {
          ForeignObjectsStay(objects, done, key);
        }
      }
    } else {
      var done := [Put(payload), Remove(payload)];
      PlayTwo(objects, done);
      assert key !in Play(objects, done);
      assert forall op | op in done :: op.payload == payload;
    }
  }

  lemma PlayTwo(objects: Objects, done: seq<Operation>)
    requires |done| == 2
    ensures Play(objects, done) == After(After(objects, done[0]), done[1])
  {
    assert done[..1] == [done[0]] && [done[0]][..0] == [];
    assert Play(objects, [done[0]]) == After(Play(objects, []), done[0]);
  }

  predicate On(done: seq<Operation>, key: Key) {
    forall op | op in done :: KeyOf(op.payload) == key
  }

  // Applied and unapplied any number of times with any content, a remediation for an object that
  // was not there leaves the cluster as it was.
  lemma {:induction false} UnapplyRestores(objects: Objects, done: seq<Operation>, key: Key)
    requires key !in objects && On(done, key)
    ensures Play(objects, done) - {key} == objects
    ensures key in Play(objects, done) ==> HasMark(Play(objects, done)[key])
    ensures done != [] && done[|done| - 1].Remove? && !key.kind.KubeletConfig? ==> Play(objects, done) == objects
  {
    if done == [] {
    } else {
      var init, last := done[..|done| - 1], done[|done| - 1];
      assert done == init + [last];
      UnapplyRestores(objects, init, key);
      var before := Play(objects, init);
      assert KeyOf(last.payload) == key;
      if key in before {
        GoneExactlyWhen(before, last, key);
      }
      assert After(before, last) - {key} == before - {key};
      assert key !in After(before, last) ==> After(before, last) == After(before, last) - {key};
    }
  }

  // Except for a KubeletConfig: applied once, it is there for good.
  lemma {:induction false} KubeletConfigIsLeftBehind(objects: Objects, done: seq<Operation>, key: Key)
    requires key !in objects && On(done, key) && key.kind.KubeletConfig?
    ensures key in Play(objects, done) <==> exists op | op in done :: op.Put?
  {
    if done == [] {
    } else {
      var init, last := done[..|done| - 1], done[|done| - 1];
      assert done == init + [last];
      KubeletConfigIsLeftBehind(objects, init, key);
      assert last in done && KeyOf(last.payload) == key;
      if op :| op in init && op.Put? {
        assert op in done;
      }
    }
  }

  // An object has everything a payload asks for.
  predicate Has(objects: Objects, payload: KubeObject) {
    && KeyOf(payload) in objects
    && forall path | path in payload.content ::
         path in objects[KeyOf(payload)].content && objects[KeyOf(payload)].content[path] == payload.content[path]
  }

  lemma {:induction false} AppliedIsThere(objects: Objects, done: seq<Operation>, payload: KubeObject)
    requires done != [] && forall op | op in done :: op == Put(payload)
    ensures Has(Play(objects, done), payload)
  {
    assert done[|done| - 1] in done;
  }

  /******* What is left of an object *******/

  predicate IsOn(op: Operation, key: Key) {
    op.payload.kind == key.kind && op.payload.name == key.name
  }

  // The object is there after every operation, if not before.
  predicate Stays(objects: Objects, done: seq<Operation>, key: Key) {
    done != [] ==> key in Play(objects, done) && Stays(objects, done[..|done| - 1], key)
  }

  // What the last put of the object that mentions a path has for it.
  function LastPutOf(done: seq<Operation>, key: Key, path: string): Option<string> {
    if done == [] then None
    else
      var last := done[|done| - 1];
      if last.Put? && IsOn(last, key) && path in last.payload.content then Some(last.payload.content[path])
      else LastPutOf(done[..|done| - 1], key, path)
  }

  function LastAnnotationOf(done: seq<Operation>, key: Key, name: string): Option<string> {
    if done == [] then None
    else
      var last := done[|done| - 1];
      if last.Put? && IsOn(last, key) && last.payload.annotations.Some? && name in last.payload.annotations.value then
        Some(last.payload.annotations.value[name])
      else LastAnnotationOf(done[..|done| - 1], key, name)
  }

  function ValueAt(values: map<string, string>, path: string): Option<string> {
    if path in values then Some(values[path]) else None
  }

  // What an object has at a path, nothing if there is no object.
  function ContentAt(objects: Objects, key: Key, path: string): Option<string> {
    if key in objects then ValueAt(objects[key].content, path) else None
  }

  function AnnotationAt(objects: Objects, key: Key, name: string): Option<string> {
    if key in objects && objects[key].annotations.Some? then ValueAt(objects[key].annotations.value, name) else None
  }

  // While an object stays, it has at each path what was last put there, and what it had before if nothing
  // was. So it keeps what no payload mentions.
  lemma {:induction false} ContentIsLastPut(objects: Objects, done: seq<Operation>, key: Key, path: string)
    requires Stays(objects, done, key)
    ensures ContentAt(Play(objects, done), key, path) ==
            match LastPutOf(done, key, path) case None => ContentAt(objects, key, path) case Some(v) => Some(v)
  {
    if done == [] {
    } else {
      ContentIsLastPut(objects, done[..|done| - 1], key, path);
    }
  }

  // The same for annotations, but for the mark that a created object gets.
  lemma {:induction false} AnnotationIsLastPut(objects: Objects, done: seq<Operation>, key: Key, name: string)
    requires Stays(objects, done, key) && (name == "compliance.openshift.io/remediation" ==> key in objects)
    ensures AnnotationAt(Play(objects, done), key, name) ==
            match LastAnnotationOf(done, key, name)
            case None => AnnotationAt(objects, key, name)
            case Some(v) => Some(v)
  {
    if done == [] {
    } else {
      AnnotationIsLastPut(objects, done[..|done| - 1], key, name);
    }
  }

  // Objects of another kind or name are not touched by any of it.
  lemma {:induction false} OthersUntouched(objects: Objects, done: seq<Operation>, key: Key)
    requires forall op | op in done :: !IsOn(op, key)
    ensures key in Play(objects, done) <==> key in objects
    ensures key in objects ==> Play(objects, done)[key] == objects[key]
  {
    if done == [] {
    } else {
      var init, last := done[..|done| - 1], done[|done| - 1];
      assert done == init + [last];
      OthersUntouched(objects, init, key);
      assert last in done && KeyOf(last.payload) != key;
    }
  }

  // Every object has the kind and name it is stored under.
  predicate UnderTheirKeys(objects: Objects) {
    forall key | key in objects :: objects[key].kind == key.kind && objects[key].name == key.name
  }

  lemma {:induction false} KindAndNameStay(objects: Objects, done: seq<Operation>)
    requires UnderTheirKeys(objects)
    ensures UnderTheirKeys(Play(objects, done))
  {
    if done == [] {
    } else {
      KindAndNameStay(objects, done[..|done| - 1]);
    }
  }

  /******* The store and its copies *******/

  // A remediation as a listing shows it. The listing may be of any age, and so may each entry.
  datatype Listed = Listed(name: string, stored: Stored)

  predicate DistinctNames(listing: seq<Listed>) {
    forall i, j | 0 <= i < j < |listing| :: listing[i].name != listing[j].name
  }

  predicate AreCopies(listing: seq<Listed>, rems: map<string, Stored>) {
    forall l | l in listing :: IsCopy(l.name, l.stored, rems)
  }

  function Decisions(rems: map<string, Stored>): Flags {
    map n | n in rems :: rems[n].rem.apply
  }

  function Shown(listing: seq<Listed>): Flags {
    if listing == [] then map[]
    else
      var last := listing[|listing| - 1];
      Shown(listing[..|listing| - 1])[last.name := last.stored.rem.apply]
  }

  predicate ToWrite(l: Listed, name: string, apply: bool) {
    Relative(l.name, name) && l.stored.rem.apply != apply
  }

  // The relatives that are written when the first `k` entries are done.
  function WrittenUpTo(listing: seq<Listed>, k: nat, name: string, apply: bool): set<string>
    requires k <= |listing|
  {
    Differing(Shown(listing[..k]), name, apply)
  }

  lemma {:induction false} ShownNames(listing: seq<Listed>, name: string)
    ensures name in Shown(listing) <==> exists l | l in listing :: l.name == name
  {
    if listing == [] {
    } else {
      var init, last := listing[..|listing| - 1], listing[|listing| - 1];
      assert listing == init + [last];
      ShownNames(init, name);
    }
  }

  lemma WrittenStep(listing: seq<Listed>, k: nat, name: string, apply: bool)
    requires k < |listing| && DistinctNames(listing)
    ensures listing[k].name !in Shown(listing[..k])
    ensures WrittenUpTo(listing, k + 1, name, apply) ==
            WrittenUpTo(listing, k, name, apply) + if ToWrite(listing[k], name, apply) then {listing[k].name} else {}
  {
    assert listing[..k + 1][..k] == listing[..k];
    ShownNames(listing[..k], listing[k].name);
  }

  function WithDecision(stored: Stored, apply: bool): Stored {
    Stored(stored.rem.(apply := apply), stored.version + 1)
  }

  // The store with a decision written to some of its remediations.
  function Decided(rems: map<string, Stored>, names: set<string>, apply: bool): map<string, Stored> {
    map n | n in rems :: if n in names then WithDecision(rems[n], apply) else rems[n]
  }

  lemma DecidedIsStep(rems: map<string, Stored>, shown: Flags, v: Visit)
    requires v.written <= Differing(shown, v.name, v.apply)
    ensures Decisions(Decided(rems, v.written, v.apply)) == FamilyStep(Decisions(rems), v)
    ensures v.name in rems ==> Decided(rems, v.written, v.apply)[v.name] == rems[v.name]
    ensures Decided(rems, v.written, v.apply).Keys == rems.Keys
  {
  }

  /******* The controller *******/

  // How the calls of one reconcile turn out: the lookup, the listing and how many updates of the
  // family go through, the write in the cluster, and the write of the remediation itself.
  datatype Calls = Calls(lookup: Option<Failure>, list: bool, updates: nat, write: Option<Failure>, save: bool)

  // What a reconcile makes of a fresh copy.
  function Saved(copy: Stored, action: Action): Stored {
    match action
    case Stop => copy
    case Write(rem) => Stored(rem, copy.version + 1)
    case Finish(_, failure) => Stored(copy.rem.(state := Classify(copy.rem, failure)), copy.version + 1)
  }

  // The store after it: written if the copy is current and the call goes through.
  function WithSaved(rems: map<string, Stored>, name: string, copy: Stored, action: Action, save: bool)
    : map<string, Stored>
  {
    if save && IsCurrent(name, copy, rems) then rems[name := Saved(copy, action)] else rems
  }

  lemma {:induction false} SavedKeepsDecision(copy: Stored, f: Findings)
    ensures Saved(copy, Act(copy.rem, f)).rem.apply == copy.rem.apply
  {
    var r := copy.rem;
    assert Act(r, f).Write? ==> Act(r, f).rem.apply == r.apply;
  }

  lemma SavingKeepsDecisions(rems: map<string, Stored>, name: string, copy: Stored, action: Action, save: bool)
    requires IsCopy(name, copy, rems) && Saved(copy, action).rem.apply == copy.rem.apply
    ensures Decisions(WithSaved(rems, name, copy, action, save)) == Decisions(rems)
  {
  }

  // The action does something in the cluster.
  predicate Works(action: Action) {
    action.Finish? && action.done.Some?
  }

  // An entry has to be written, and cannot be.
  predicate Refused(listing: seq<Listed>, k: nat, name: string, apply: bool, calls: Calls, rems: map<string, Stored>)
    requires k < |listing|
  {
    && ToWrite(listing[k], name, apply)
    && (|WrittenUpTo(listing, k, name, apply)| == calls.updates || !IsCurrent(listing[k].name, listing[k].stored, rems))
  }

  // Going through a listing gets as far as the first entry that is refused.
  ghost predicate GetsTo(listing: seq<Listed>, k: nat, name: string, apply: bool, calls: Calls,
                         rems: map<string, Stored>)
    requires k <= |listing|
  {
    && (!calls.list ==> k == 0)
    && (forall j | 0 <= j < k :: !Refused(listing, j, name, apply, calls, rems))
    && (calls.list && k < |listing| ==> Refused(listing, k, name, apply, calls, rems))
  }

  // The first `k` entries are done.
  ghost predicate Progress(listing: seq<Listed>, k: nat, name: string, apply: bool, calls: Calls,
                           before: map<string, Stored>, rems: map<string, Stored>, updated: nat)
    requires k <= |listing|
  {
    && updated == |WrittenUpTo(listing, k, name, apply)|
    && rems == Decided(before, WrittenUpTo(listing, k, name, apply), apply)
    && forall j | 0 <= j < k :: !Refused(listing, j, name, apply, calls, before)
  }

  lemma ProgressSkips(listing: seq<Listed>, k: nat, name: string, apply: bool, calls: Calls,
                      before: map<string, Stored>, rems: map<string, Stored>, updated: nat)
    requires k < |listing| && DistinctNames(listing) && !ToWrite(listing[k], name, apply)
    requires Progress(listing, k, name, apply, calls, before, rems, updated)
    ensures Progress(listing, k + 1, name, apply, calls, before, rems, updated)
  {
    WrittenStep(listing, k, name, apply);
  }

  // The entry is still as it was in the store.
  lemma EntryUntouched(listing: seq<Listed>, k: nat, name: string, apply: bool, calls: Calls,
                       before: map<string, Stored>, rems: map<string, Stored>, updated: nat)
    requires k < |listing| && DistinctNames(listing) && ToWrite(listing[k], name, apply)
    requires Progress(listing, k, name, apply, calls, before, rems, updated) && AreCopies(listing, before)
    ensures IsCurrent(listing[k].name, listing[k].stored, rems) == IsCurrent(listing[k].name, listing[k].stored, before)
    ensures IsCopy(listing[k].name, listing[k].stored, rems)
  {
    WrittenStep(listing, k, name, apply);
    assert listing[k] in listing;
  }

  lemma ProgressWrites(listing: seq<Listed>, k: nat, name: string, apply: bool, calls: Calls,
                       before: map<string, Stored>, rems: map<string, Stored>, updated: nat)
    requires k < |listing| && DistinctNames(listing) && ToWrite(listing[k], name, apply)
    requires Progress(listing, k, name, apply, calls, before, rems, updated) && AreCopies(listing, before)
    requires updated != calls.updates && IsCurrent(listing[k].name, listing[k].stored, before)
    ensures Progress(listing, k + 1, name, apply, calls, before,
                     rems[listing[k].name := WithDecision(listing[k].stored, apply)], updated + 1)
  {
    WrittenStep(listing, k, name, apply);
    EntryUntouched(listing, k, name, apply, calls, before, rems, updated);
  }

  // The listing cannot be had, or an entry is refused.
  ghost predicate FamilyNotSet(listing: seq<Listed>, name: string, apply: bool, calls: Calls,
                               rems: map<string, Stored>)
  {
    !calls.list || exists k | 0 <= k < |listing| :: Refused(listing, k, name, apply, calls, rems)
  }

  // What a failure of the work can come from. That of a creation is wrapped, so that it is always
  // worth a retry.
  ghost predicate Explained(failure: Failure, calls: Calls, created: bool, notSet: bool) {
    || calls.lookup == Some(failure)
    || (failure == Wrapped(OtherCause) && notSet)
    || (calls.write.Some? && failure == if created then Wrapped(calls.write.value.cause) else calls.write.value)
  }

  // Every relative is listed as it is stored, and none that is not.
  predicate ListsFamily(listing: seq<Listed>, name: string, rems: map<string, Stored>) {
    && (forall l | l in listing && Relative(l.name, name) :: IsCurrent(l.name, l.stored, rems))
    && (forall n | n in rems && Relative(n, name) :: n in Shown(listing))
  }

  // A reconcile on current copies, of which no update fails.
  predicate SeesTheStore(name: string, copy: Stored, listing: seq<Listed>, calls: Calls, rems: map<string, Stored>) {
    IsCurrent(name, copy, rems) && ListsFamily(listing, name, rems) && |listing| <= calls.updates
  }

  lemma {:induction false} ShownIsStored(listing: seq<Listed>, name: string, rems: map<string, Stored>)
    requires AreCopies(listing, rems)
    requires forall l | l in listing && Relative(l.name, name) :: IsCurrent(l.name, l.stored, rems)
    ensures forall n | n in Shown(listing) && Relative(n, name) :: n in rems && Shown(listing)[n] == rems[n].rem.apply
  {
    if listing == [] {
    } else {
      var init, last := listing[..|listing| - 1], listing[|listing| - 1];
      assert listing == init + [last];
      ShownIsStored(init, name, rems);
      assert last in listing && IsCopy(last.name, last.stored, rems);
    }
  }

  lemma FamilyIsDiffering(listing: seq<Listed>, name: string, apply: bool, rems: map<string, Stored>)
    requires AreCopies(listing, rems) && ListsFamily(listing, name, rems)
    ensures Differing(Shown(listing), name, apply) == Differing(Decisions(rems), name, apply)
  {
    ShownIsStored(listing, name, rems);
  }

  lemma {:induction false} WrittenIsBounded(listing: seq<Listed>, k: nat, name: string, apply: bool)
    requires k <= |listing| && DistinctNames(listing)
    ensures |WrittenUpTo(listing, k, name, apply)| <= k
  {
    if k == 0 {
    } else {
      WrittenIsBounded(listing, k - 1, name, apply);
      WrittenStep(listing, k - 1, name, apply);
    }
  }

  // Nothing is refused then.
  lemma FamilyIsSet(name: string, copy: Stored, listing: seq<Listed>, apply: bool, calls: Calls,
                    rems: map<string, Stored>)
    requires SeesTheStore(name, copy, listing, calls, rems) && DistinctNames(listing)
    ensures forall k | 0 <= k < |listing| :: !Refused(listing, k, name, apply, calls, rems)
  {
    forall k | 0 <= k < |listing|
      ensures !Refused(listing, k, name, apply, calls, rems)
    {
      WrittenIsBounded(listing, k, name, apply);
      assert listing[k] in listing;
    }
  }

  // What the work makes of cluster and store, and how it can fail.
  ghost predicate Worked(name: string, apply: bool, obj: KubeObject, listing: seq<Listed>, calls: Calls,
                         failure: Option<Failure>, reached: nat,
                         objects: Objects, rems: map<string, Stored>, objects': Objects, rems': map<string, Stored>)
    requires reached <= |listing|
  {
    var present := KeyOf(obj) in objects;
    && objects' == (if failure.Some? then objects else After(objects, if apply then Put(obj) else Remove(obj)))
    && rems' == Decided(rems, WrittenUpTo(listing, reached, name, apply), apply)
    && (if calls.lookup.None? && (apply || present) then GetsTo(listing, reached, name, apply, calls, rems)
        else reached == 0)
    && (failure.None? ==> reached == if apply || present then |listing| else 0)
    && (failure.Some? ==>
          Explained(failure.value, calls, apply && !present, FamilyNotSet(listing, name, apply, calls, rems)))
    && (calls.lookup.Some? ==> failure == calls.lookup)
  }

  // What one reconcile makes of cluster and store, given the findings with the failure that occurred
  // and how far it got in the listing.
  ghost predicate Reconciled(name: string, copy: Stored, listing: seq<Listed>, f: Findings, calls: Calls, reached: nat,
                             objects: Objects, rems: map<string, Stored>, objects': Objects, rems': map<string, Stored>)
    requires reached <= |listing|
  {
    var r, action := copy.rem, Act(copy.rem, f);
    && objects' == (if Works(action) then After(objects, action.done.value) else objects)
    && rems' == WithSaved(Decided(rems, WrittenUpTo(listing, reached, name, r.apply), r.apply), name, copy, action,
                          calls.save)
    && (Works(action) ==>
          reached == if r.apply || KeyOf(action.done.value.payload) in objects then |listing| else 0)
    && (reached == 0 || GetsTo(listing, reached, name, r.apply, calls, rems))
    && (f.failure.None? && !Works(action) ==> reached == 0)
    && (f.failure.Some? ==>
          && Applicable(r).Some?
          && Explained(f.failure.value, calls, r.apply && KeyOf(Applicable(r).value) !in objects,
                       FamilyNotSet(listing, name, r.apply, calls, rems)))
  }

  // What is left to do once dependencies and values do not end the reconcile.
  predicate Ready(r: Remediation, f: Findings) {
    var action := Act(r, f.(failure := None));
    !action.Stop? && !action.Write?
  }

  predicate Waits(r: Remediation) {
    HasUnmetDependencies(r) || r.unsetValue || r.valueRequired
  }

  lemma {:induction false} ReadyActs(r: Remediation, f: Findings)
    requires Ready(r, f.(failure := None))
    ensures Applicable(r).Some?
    ensures Act(r, f) ==
            if Waits(r) then Finish(None, None)
            else if f.failure.Some? && IsRetriable(f.failure.value) then Stop
            else if f.failure.Some? then Finish(None, f.failure)
            else Finish(Some(if r.apply then Put(Applicable(r).value) else Remove(Applicable(r).value)), None)
  {
  }

  lemma WaitingReconciles(name: string, copy: Stored, listing: seq<Listed>, f: Findings, calls: Calls,
                          objects: Objects, rems: map<string, Stored>, rems': map<string, Stored>)
    requires f.failure.None? && Ready(copy.rem, f) && Waits(copy.rem)
    requires rems' == WithSaved(rems, name, copy, Finish(None, None), calls.save)
    ensures Reconciled(name, copy, listing, f, calls, 0, objects, rems, objects, rems')
  {
    ReadyActs(copy.rem, f);
    NothingDecided(rems, copy.rem.apply);
    assert listing[..0] == [];
  }

  lemma WorkReconciles(name: string, copy: Stored, listing: seq<Listed>, f: Findings, calls: Calls, reached: nat,
                       objects: Objects, rems: map<string, Stored>, objects': Objects, worked: map<string, Stored>,
                       rems': map<string, Stored>)
    requires Ready(copy.rem, f) && !Waits(copy.rem) && reached <= |listing| && Applicable(copy.rem).Some?
    requires Worked(name, copy.rem.apply, Applicable(copy.rem).value, listing, calls, f.failure, reached,
                    objects, rems, objects', worked)
    requires rems' == WithSaved(worked, name, copy, Act(copy.rem, f), calls.save)
    ensures Reconciled(name, copy, listing, f, calls, reached, objects, rems, objects', rems')
  {
    ReadyActs(copy.rem, f);
  }

  lemma CopyIsKept(name: string, copy: Stored, listing: seq<Listed>, reached: nat, rems: map<string, Stored>)
    requires reached <= |listing| && IsCopy(name, copy, rems)
    ensures IsCopy(name, copy, Decided(rems, WrittenUpTo(listing, reached, name, copy.rem.apply), copy.rem.apply))
  {
  }

  lemma NothingDecided(rems: map<string, Stored>, apply: bool)
    ensures Decided(rems, {}, apply) == rems
  {
  }

  // One visit more.
  lemma VisitIsStep(name: string, copy: Stored, listing: seq<Listed>, f: Findings, calls: Calls, reached: nat,
                    rems: map<string, Stored>, rems': map<string, Stored>)
    requires reached <= |listing| && IsCopy(name, copy, rems)
    requires var decided := Decided(rems, WrittenUpTo(listing, reached, name, copy.rem.apply), copy.rem.apply);
             rems' == WithSaved(decided, name, copy, Act(copy.rem, f), calls.save)
    ensures var v := Visit(name, copy.rem.apply, WrittenUpTo(listing, reached, name, copy.rem.apply));
            Decisions(rems') == FamilyStep(Decisions(rems), v)
  {
    var v := Visit(name, copy.rem.apply, WrittenUpTo(listing, reached, name, copy.rem.apply));
    DecidedIsStep(rems, Shown(listing[..reached]), v);
    SavedKeepsDecision(copy, f);
    SavingKeepsDecisions(Decided(rems, v.written, v.apply), name, copy, Act(copy.rem, f), calls.save);
  }

  // On current copies the visit is a fresh one.
  lemma SeenIsFresh(name: string, copy: Stored, listing: seq<Listed>, calls: Calls, reached: nat,
                    rems: map<string, Stored>)
    requires SeesTheStore(name, copy, listing, calls, rems) && IsCopy(name, copy, rems)
    requires DistinctNames(listing) && AreCopies(listing, rems) && reached <= |listing|
    requires reached == 0 || GetsTo(listing, reached, name, copy.rem.apply, calls, rems)
    ensures FreshStep(Decisions(rems), Visit(name, copy.rem.apply, WrittenUpTo(listing, reached, name, copy.rem.apply)))
  {
    var apply := copy.rem.apply;
    assert listing[..0] == [] && listing[..|listing|] == listing;
    if reached != 0 {
      FamilyIsSet(name, copy, listing, apply, calls, rems);
      assert reached == |listing|;
      FamilyIsDiffering(listing, name, apply, rems);
    }
  }

  class ReconcileComplianceRemediation {
    var objects: Objects
    // All remediations of the namespace.
    var rems: map<string, Stored>
    // As they were at first, and what was done since.
    ghost const start: Flags
    ghost const origin: Objects
    ghost var run: seq<Visit>
    ghost var done: seq<Operation>

    // The decisions are what the visits so far made of them, and the objects what the operations did.
    ghost predicate Valid()
      reads this
    {
      Decisions(rems) == FamilyRun(start, run) && objects == Play(origin, done)
    }

    constructor (objects: Objects, rems: map<string, Stored>)
      ensures Valid() && this.objects == objects && this.rems == rems && start == Decisions(rems) && origin == objects
      ensures run == [] && done == []
    {
      this.objects, this.rems := objects, rems;
      start, origin, run, done := Decisions(rems), objects, [], [];
    }

    // After fresh reconciles, the first one with anything to write has decided for its family.
    lemma FreshReconcilesAgree(member: string)
      requires Valid() && Fresh(start, run) && FirstDecision(run, member).Some?
      ensures forall n | n in rems && SameFamily(n, member) :: rems[n].rem.apply == FirstDecision(run, member).value
    {
      FirstReconciledDecides(start, run, member);
      assert forall n | n in rems :: Decisions(rems)[n] == rems[n].rem.apply;
    }

    // A write of the whole object keeps the stored state. It is refused for a stale copy.
    method UpdateSpec(name: string, rem: Remediation, read: nat, available: bool) returns (ok: bool)
      modifies `rems
      ensures ok == (available && IsCurrent(name, Stored(rem, read), old(rems)))
      ensures rems == if ok then old(rems)[name := Stored(rem.(state := old(rems)[name].rem.state), read + 1)]
                      else old(rems)
    {
      ok := available && name in rems && rems[name].version == read;
      if ok {
        rems := rems[name := Stored(rem.(state := rems[name].rem.state), read + 1)];
      }
    }

    // A write of the state keeps the rest.
    method UpdateState(name: string, state: State, read: nat, available: bool) returns (ok: bool)
      modifies `rems
      ensures ok == (available && name in old(rems) && old(rems)[name].version == read)
      ensures rems == if ok then old(rems)[name := Stored(old(rems)[name].rem.(state := state), read + 1)]
                      else old(rems)
    {
      ok := available && name in rems && rems[name].version == read;
      if ok {
        rems := rems[name := Stored(rems[name].rem.(state := state), read + 1)];
      }
    }

    // The copy of a listed relative with the decision, written back.
    method UpdateDecision(l: Listed, apply: bool, available: bool) returns (ok: bool)
      requires IsCopy(l.name, l.stored, rems)
      modifies `rems
      ensures ok == (available && IsCurrent(l.name, l.stored, old(rems)))
      ensures rems == if ok then old(rems)[l.name := WithDecision(l.stored, apply)] else old(rems)
    {
      var copy := l.stored.rem.(apply := apply);
      assert copy.(state := l.stored.rem.state) == copy;
      ok := UpdateSpec(l.name, copy, l.stored.version, available);
    }

    // Goes through the listing in its order, and stops at the first update that fails.
    method SetRemediations(name: string, listing: seq<Listed>, apply: bool, calls: Calls)
      returns (ok: bool, ghost reached: nat)
      requires DistinctNames(listing) && AreCopies(listing, rems)
      modifies `rems
      ensures reached <= |listing| && GetsTo(listing, reached, name, apply, calls, old(rems))
      ensures rems == Decided(old(rems), WrittenUpTo(listing, reached, name, apply), apply)
      ensures ok <==> calls.list && reached == |listing|
    {
      if !calls.list {
        assert rems == Decided(rems, {}, apply) && listing[..0] == [];
        return false, 0;
      }
      var updated := 0;
      ghost var before := rems;
      assert listing[..0] == [] && rems == Decided(rems, {}, apply);
      for i := 0 to |listing|
        invariant updated <= calls.updates
        invariant Progress(listing, i, name, apply, calls, before, rems, updated)
      {
        var remediation := listing[i];
        if remediation.name == name || Strip(remediation.name) != Strip(name) || remediation.stored.rem.apply == apply {
          ProgressSkips(listing, i, name, apply, calls, before, rems, updated);
          continue;
        }
        EntryUntouched(listing, i, name, apply, calls, before, rems, updated);
        ghost var sofar := rems;
        var updOk := UpdateDecision(remediation, apply, updated < calls.updates);
        if !updOk {
          return false, i;
        }
        ProgressWrites(listing, i, name, apply, calls, before, sofar, updated);
        updated := updated + 1;
      }
      return true, |listing|;
    }

    method CreateRemediation(obj: KubeObject, failure: Option<Failure>)
      requires KeyOf(obj) !in objects
      modifies `objects
      ensures objects == if failure.None? then After(old(objects), Put(obj)) else old(objects)
    {
      var remObj := AddRemediationAnnotation(obj);
      if failure.None? {
        objects := objects[KeyOf(remObj) := remObj];
      }
    }

    method PatchRemediation(obj: KubeObject, failure: Option<Failure>)
      requires KeyOf(obj) in objects
      modifies `objects
      ensures objects == if failure.None? then After(old(objects), Put(obj)) else old(objects)
    {
      if failure.None? {
        objects := objects[KeyOf(obj) := Merge(objects[KeyOf(obj)], obj)];
      }
    }

    method DeleteRemediation(obj: KubeObject, found: KubeObject, calls: Calls) returns (failure: Option<Failure>)
      requires KeyOf(obj) in objects && objects[KeyOf(obj)] == found
      modifies `objects
      ensures failure.None? ==> objects == After(old(objects), Remove(obj))
      ensures failure.Some? ==> objects == old(objects) && failure == calls.write
    {
      if obj.kind.KubeletConfig? {
        return None;
      }
      if !Marked(found) {
        return None;
      }
      failure := calls.write;
      if failure.None? {
        objects := objects - {KeyOf(obj)};
      }
    }

    // The object of the remediation, as completed for its kind, is brought in line with the
    // decision, and so is the family; the family first.
    method ReconcileRemediation(name: string, apply: bool, obj: KubeObject, listing: seq<Listed>, calls: Calls)
      returns (failure: Option<Failure>, ghost reached: nat)
      requires DistinctNames(listing) && AreCopies(listing, rems)
      modifies `objects, `rems
      ensures reached <= |listing|
      ensures Worked(name, apply, obj, listing, calls, failure, reached, old(objects), old(rems), objects, rems)
    {
      reached := 0;
      NothingDecided(rems, apply);
      assert listing[..0] == [];
      if calls.lookup.Some? {
        return calls.lookup, reached;
      }
      var ok;
      if KeyOf(obj) !in objects {
        if apply {
          ok, reached := SetRemediations(name, listing, true, calls);
          if !ok {
            return Some(Wrapped(OtherCause)), reached;
          }
          CreateRemediation(obj, calls.write);
          if calls.write.Some? {
            return Some(Wrapped(calls.write.value.cause)), reached;
          }
          return None, reached;
        }
        return None, reached;
      }
      var found := objects[KeyOf(obj)];
      if apply {
        ok, reached := SetRemediations(name, listing, true, calls);
        if !ok {
          return Some(Wrapped(OtherCause)), reached;
        }
        PatchRemediation(obj, calls.write);
        return calls.write, reached;
      }
      ok, reached := SetRemediations(name, listing, false, calls);
      if !ok {
        return Some(Wrapped(OtherCause)), reached;
      }
      failure := DeleteRemediation(obj, found, calls);
    }

    // One reconcile of a remediation on a copy of it, with a listing of the family, whatever their
    // age. `f` says what its checks find, and the failure that counts is the one that occurs.
    method Reconcile(name: string, copy: Stored, listing: seq<Listed>, f: Findings, calls: Calls)
      returns (failure: Option<Failure>, ghost reached: nat)
      requires Valid() && IsCopy(name, copy, rems) && DistinctNames(listing) && AreCopies(listing, rems)
      modifies this
      ensures Valid() && reached <= |listing|
      ensures run == old(run) + [Visit(name, copy.rem.apply, WrittenUpTo(listing, reached, name, copy.rem.apply))]
      ensures Reconciled(name, copy, listing, f.(failure := failure), calls, reached,
                         old(objects), old(rems), objects, rems)
      ensures var action := Act(copy.rem, f.(failure := failure));
              done == old(done) + if Works(action) then [action.done.value] else []
      ensures SeesTheStore(name, copy, listing, calls, old(rems)) && old(Fresh(start, run)) ==> Fresh(start, run)
    {
      ghost var init, before, earlier := run, rems, done;
      failure, reached := ReconcileInstance(name, copy, listing, f, calls);
      ghost var v := Visit(name, copy.rem.apply, WrittenUpTo(listing, reached, name, copy.rem.apply));
      ghost var action := Act(copy.rem, f.(failure := failure));
      run := run + [v];
      assert run[..|run| - 1] == init;
      if Works(action) {
        done := done + [action.done.value];
        assert done[..|done| - 1] == earlier;
      }
      VisitIsStep(name, copy, listing, f.(failure := failure), calls, reached, before, rems);
      if SeesTheStore(name, copy, listing, calls, before) {
        SeenIsFresh(name, copy, listing, calls, reached, before);
      }
    }

    method ReconcileInstance(name: string, copy: Stored, listing: seq<Listed>, f: Findings, calls: Calls)
      returns (failure: Option<Failure>, ghost reached: nat)
      requires IsCopy(name, copy, rems) && DistinctNames(listing) && AreCopies(listing, rems)
      modifies `objects, `rems
      ensures reached <= |listing|
      ensures Reconciled(name, copy, listing, f.(failure := failure), calls, reached,
                         old(objects), old(rems), objects, rems)
    {
      var stop := Prepare(name, copy, f, calls.save);
      if stop {
        return None, 0;
      }
      failure, reached := WorkAndReport(name, copy, listing, f, calls);
    }

    // The work in the cluster, unless it has to wait, and the status.
    method WorkAndReport(name: string, copy: Stored, listing: seq<Listed>, f: Findings, calls: Calls)
      returns (failure: Option<Failure>, ghost reached: nat)
      requires IsCopy(name, copy, rems) && DistinctNames(listing) && AreCopies(listing, rems) && Ready(copy.rem, f)
      modifies `objects, `rems
      ensures reached <= |listing|
      ensures Reconciled(name, copy, listing, f.(failure := failure), calls, reached,
                         old(objects), old(rems), objects, rems)
    {
      failure, reached := None, 0;
      var instance := copy.rem;
      ghost var objects0, rems0 := objects, rems;
      ReadyActs(instance, f.(failure := None));
      if !(HasUnmetDependencies(instance) || instance.unsetValue || instance.valueRequired) {
        var obj := Applicable(instance).value;
        failure, reached := ReconcileRemediation(name, instance.apply, obj, listing, calls);
        ReadyActs(instance, f.(failure := failure));
        CopyIsKept(name, copy, listing, reached, rems0);
      }
      ghost var worked, action := rems, Act(instance, f.(failure := failure));
      if failure.Some? && IsRetriable(failure.value) {
        WorkReconciles(name, copy, listing, f.(failure := failure), calls, reached, objects0, rems0, objects, worked,
                       rems);
        return;
      }
      ReconcileRemediationStatus(name, copy, action.done, failure, calls.save);
      if Waits(instance) {
        WaitingReconciles(name, copy, listing, f.(failure := None), calls, objects, rems0, rems);
      } else {
        WorkReconciles(name, copy, listing, f.(failure := failure), calls, reached, objects0, rems0, objects, worked,
                       rems);
      }
    }

    method ReconcileRemediationStatus(name: string, copy: Stored, ghost done: Option<Operation>,
                                      failure: Option<Failure>, save: bool)
      requires IsCopy(name, copy, rems)
      modifies `rems
      ensures rems == WithSaved(old(rems), name, copy, Finish(done, failure), save)
    {
      var instanceCopy := SetRemediationStatus(copy.rem, failure);
      var ok := UpdateState(name, instanceCopy.state, copy.version, save);
    }

    // What comes before the work in the cluster; true if the reconcile ends here.
    method Prepare(name: string, copy: Stored, f: Findings, save: bool) returns (stop: bool)
      requires IsCopy(name, copy, rems)
      modifies `rems
      ensures stop <==> !Ready(copy.rem, f)
      ensures rems == if stop then WithSaved(old(rems), name, copy, Act(copy.rem, f.(failure := None)), save)
                      else old(rems)
    {
      var instance := copy.rem;
      if instance.state == NoState {
        var ok := UpdateState(name, Pending, copy.version, save);
        return true;
      }
      if instance.labelled && instance.outdated.None? {
        SaveSpec(name, copy, instance.(labelled := false), save);
        return true;
      }
      if instance.current.None? {
        return true;
      }
      stop := HandleAnnotations(name, copy, f, save);
    }

    // A changed copy, written back.
    method SaveSpec(name: string, copy: Stored, rem: Remediation, save: bool)
      requires IsCopy(name, copy, rems) && rem.state == copy.rem.state
      modifies `rems
      ensures rems == WithSaved(old(rems), name, copy, Write(rem), save)
    {
      assert rem.(state := copy.rem.state) == rem;
      var ok := UpdateSpec(name, rem, copy.version, save);
    }

    // Dependencies and values, in this order; true if the reconcile ends here.
    method HandleAnnotations(name: string, copy: Stored, f: Findings, save: bool) returns (stop: bool)
      requires IsCopy(name, copy, rems) && copy.rem.state != NoState && copy.rem.current.Some?
      requires !(copy.rem.labelled && copy.rem.outdated.None?)
      modifies `rems
      ensures stop <==> !Ready(copy.rem, f)
      ensures rems == if stop then WithSaved(old(rems), name, copy, Act(copy.rem, f.(failure := None)), save)
                      else old(rems)
    {
      var instance := copy.rem;
      if HasUnmetDependencies(instance) {
        if f.dependencies.DependenciesUnknown? {
          return true;
        }
        if f.dependencies.DependenciesMet? {
          SaveSpec(name, copy, instance.(dependenciesMet := true), save);
          return true;
        }
        if !f.dependencies.labelled {
          SaveSpec(name, copy, instance, save);
          return true;
        }
      }
      if instance.unsetValue && !f.unset.ValuesKnown? {
        if f.unset.ValuesProcessed? {
          SaveSpec(name, copy, instance, save);
        }
        return true;
      }
      if instance.valueRequired && !f.required.ValuesKnown? {
        if f.required.ValuesProcessed? {
          SaveSpec(name, copy, instance.(unsetValue := instance.unsetValue || f.required.unset), save);
        }
        return true;
      }
      return false;
    }

    method SetRemediationStatus(rem: Remediation, failure: Option<Failure>) returns (copy: Remediation)
      ensures copy == rem.(state := Classify(rem, failure))
    {
      copy := rem;
      if failure.Some? {
        if ErrorOnOptional(rem, failure.value) {
          copy := copy.(state := NotApplied);
        } else {
          copy := copy.(state := Error);
        }
        return;
      }
      if !rem.apply {
        copy := copy.(state := NotApplied);
        return;
      }
      if rem.outdated.Some? {
        copy := copy.(state := Outdated);
        return;
      }
      if HasUnmetDependencies(rem) {
        copy := copy.(state := MissingDependencies);
        return;
      }
      if rem.unsetValue {
        copy := copy.(state := NeedsReview);
        return;
      }
      copy := copy.(state := Applied);
    }
  }

  /******* A listing that is believed *******/

  lemma {:induction false} NothingToWrite(listing: seq<Listed>, k: nat, name: string, apply: bool)
    requires k <= |listing| && DistinctNames(listing) && forall l | l in listing :: !ToWrite(l, name, apply)
    ensures WrittenUpTo(listing, k, name, apply) == {}
  {
    if k == 0 {
    } else {
      NothingToWrite(listing, k - 1, name, apply);
      WrittenStep(listing, k - 1, name, apply);
      assert listing[k - 1] in listing;
    }
  }

  lemma SucceedsUnwritten(name: string, copy: Stored, listing: seq<Listed>, f: Findings, reached: nat,
                          objects: Objects, rems: map<string, Stored>, objects': Objects, rems': map<string, Stored>)
    requires reached <= |listing| && DistinctNames(listing) && copy.rem.apply && Ready(copy.rem, f) && !Waits(copy.rem)
    requires forall l | l in listing :: !ToWrite(l, name, true)
    requires Reconciled(name, copy, listing, f, ALL_WELL, reached, objects, rems, objects', rems')
    requires IsCurrent(name, copy, rems)
    ensures f.failure.None? && Applicable(copy.rem).Some? && KeyOf(Applicable(copy.rem).value) in objects'
    ensures rems'.Keys == rems.Keys && rems'[name].rem.apply && forall n | n in rems && n != name :: rems'[n] == rems[n]
  {
    forall k | 0 <= k < |listing|
      ensures !Refused(listing, k, name, true, ALL_WELL, rems)
    {
      assert listing[k] in listing;
    }
    ReadyActs(copy.rem, f);
    NothingToWrite(listing, reached, name, true);
    NothingDecided(rems, true);
  }

  const ALL_WELL := Calls(None, true, 1, None, true)

  // A relative was taken back, and is still shown as it was.
  predicate TakenBack(name: string, copy: Stored, relative: string, shown: Stored, taken: Stored) {
    && Relative(relative, name) && shown.version < taken.version
    && copy.rem.apply && shown.rem.apply && !taken.rem.apply
  }

  lemma StaleListingSucceeds(name: string, copy: Stored, relative: string, shown: Stored, taken: Stored, f: Findings,
                             reached: nat, rems: map<string, Stored>, objects': Objects, rems': map<string, Stored>)
    requires TakenBack(name, copy, relative, shown, taken) && Ready(copy.rem, f) && !Waits(copy.rem) && reached <= 1
    requires rems == map[name := copy, relative := taken]
    requires Reconciled(name, copy, [Listed(relative, shown)], f, ALL_WELL, reached, map[], rems, objects', rems')
    ensures f.failure.None? && Applicable(copy.rem).Some? && KeyOf(Applicable(copy.rem).value) in objects'
    ensures rems'.Keys == {name, relative} && rems'[name].rem.apply && !rems'[relative].rem.apply
    ensures !Agree(Decisions(rems'), name)
  {
    SucceedsUnwritten(name, copy, [Listed(relative, shown)], f, reached, map[], rems, objects', rems');
  }

  // The remediation is put and reported as ever, and the relative keeps the other decision.
  method StaleListingIsBelieved(name: string, copy: Stored, relative: string, shown: Stored, taken: Stored, f: Findings)
    returns (c: ReconcileComplianceRemediation, failure: Option<Failure>)
    requires TakenBack(name, copy, relative, shown, taken) && Ready(copy.rem, f) && !Waits(copy.rem)
    ensures failure == None && Applicable(copy.rem).Some? && KeyOf(Applicable(copy.rem).value) in c.objects
    ensures c.rems.Keys == {name, relative} && c.rems[name].rem.apply && !c.rems[relative].rem.apply
    ensures !Agree(Decisions(c.rems), name)
  {
    var rems := map[name := copy, relative := taken];
    c := new ReconcileComplianceRemediation(map[], rems);
    ghost var reached;
    failure, reached := c.Reconcile(name, copy, [Listed(relative, shown)], f, ALL_WELL);
    StaleListingSucceeds(name, copy, relative, shown, taken, f.(failure := failure), reached, rems, c.objects, c.rems);
  }
}
