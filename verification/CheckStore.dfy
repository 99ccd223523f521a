/** How the results of a scan replace the stored results of an earlier run: every result is
    created or updated, and what is then left over from before is deleted. */
module CheckStore {
  import opened ApiCalls

  // `payload` stands for all of a check but its status. A list may hold items without a check.
  datatype Check = NoCheck | Check(name: string, hidden: bool, notApplicable: bool, payload: string)

  datatype Stored = Stored(scan: string, notApplicable: bool, payload: string)

  type Checks = map<string, Stored>

  predicate Visible(c: Check) {
    c.Check? && !c.hidden
  }

  // A check of this name that is not hidden.
  predicate Named(c: Check, name: string) {
    c.Check? && !c.hidden && c.name == name
  }

  function StoredAs(scan: string, c: Check): Stored
    requires c.Check?
  {
    Stored(scan, c.notApplicable, c.payload)
  }

  function OfScan(checks: Checks, scan: string): set<string> {
    set n | n in checks && checks[n].scan == scan
  }

  /******* One item after the other *******/

  // The store, and the names left over from an earlier run.
  datatype State = State(checks: Checks, stale: set<string>)

  // `unreadable` says that the lookup fails for good, which is taken for an absent object.
  datatype Item = Item(check: Check, unreadable: bool)

  function WriteOne(s: State, scan: string, showNotApplicable: bool, item: Item): State {
    var c := item.check;
    if !Visible(c) then s
    else if c.name in s.checks && !item.unreadable then
      State(s.checks[c.name := StoredAs(scan, c)], s.stale - {c.name})
    else if !showNotApplicable && c.notApplicable then s
    else if c.name in s.checks then s
    else State(s.checks[c.name := StoredAs(scan, c)], s.stale)
  }

  function WriteAll(s: State, scan: string, showNotApplicable: bool, items: seq<Item>): State {
    if items == [] then s
    else
      var init, last := items[..|items| - 1], items[|items| - 1];
      WriteOne(WriteAll(s, scan, showNotApplicable, init), scan, showNotApplicable, last)
  }

  // An empty list leaves everything as it is, left-overs too.
  function Result(checks: Checks, scan: string, showNotApplicable: bool, items: seq<Item>): Checks {
    if items == [] then checks
    else
      var s := WriteAll(State(checks, OfScan(checks, scan)), scan, showNotApplicable, items);
      s.checks - s.stale
  }

  /******* The store *******/

  datatype Call = Write(name: string) | Delete(name: string)

  // No delete comes before a write.
  predicate WritesFirst(calls: seq<Call>) {
    forall i, j | 0 <= i < j < |calls| && calls[i].Delete? :: calls[j].Delete?
  }

  predicate OnlyWrites(calls: seq<Call>) {
    forall i | 0 <= i < |calls| :: calls[i].Write?
  }

  class Client {
    var checks: Checks
    // Every call to the API is an attempt; those whose number is in `failing` fail.
    const failing: set<nat>
    var attempts: nat
    ghost var calls: seq<Call>

    constructor (checks: Checks, failing: set<nat>)
      ensures this.checks == checks && this.failing == failing && attempts == 0 && calls == []
    {
      this.checks, this.failing, this.attempts, this.calls := checks, failing, 0, [];
    }

    method Attempt() returns (ok: bool)
      modifies `attempts
      ensures attempts == old(attempts) + 1 && ok == Clean(failing, old(attempts), attempts)
    {
      ok := attempts !in failing;
      attempts := attempts + 1;
    }

    method CreateOrUpdateOneResult(exists_: bool, scan: string, c: Check) returns (ok: bool)
      requires c.Check? && (exists_ ==> c.name in checks)
      modifies this
      ensures checks == if !ok || (!exists_ && c.name in old(checks)) then old(checks)
                        else old(checks)[c.name := StoredAs(scan, c)]
      ensures calls == old(calls) + [Write(c.name)]
      ensures attempts == old(attempts) + 1 && ok == Clean(failing, old(attempts), attempts)
    {
      ok := Attempt();
      calls := calls + [Write(c.name)];
      // Creating what exists already counts as done.
      if ok && (exists_ || c.name !in checks) {
        checks := checks[c.name := StoredAs(scan, c)];
      }
    }

    method DeleteResult(name: string) returns (ok: bool)
      modifies this
      ensures checks == if ok then old(checks) - {name} else old(checks)
      ensures calls == old(calls) + [Delete(name)]
      ensures attempts == old(attempts) + 1 && ok == Clean(failing, old(attempts), attempts)
    {
      ok := Attempt();
      calls := calls + [Delete(name)];
      if ok {
        checks := checks - {name};
      }
    }

    // Succeeds exactly if every call it makes does.
    method CreateResults(scan: string, showNotApplicable: bool, items: seq<Item>) returns (ok: bool)
      requires calls == []
      modifies this
      ensures old(attempts) <= attempts && ok == Clean(failing, old(attempts), attempts)
      ensures ok ==> checks == Result(old(checks), scan, showNotApplicable, items)
      ensures WritesFirst(calls)
      ensures !ok && OnlyWrites(calls) ==> old(checks).Keys <= checks.Keys
    {
      if |items| == 0 {
        return true;
      }
      ghost var start := State(checks, OfScan(checks, scan));
      var listed := Attempt();
      if !listed {
        return false;
      }
      var stale := OfScan(checks, scan);
      for i := 0 to |items|
        invariant State(checks, stale) == WriteAll(start, scan, showNotApplicable, items[..i])
        invariant OnlyWrites(calls) && old(checks).Keys <= checks.Keys
        invariant old(attempts) <= attempts && Clean(failing, old(attempts), attempts)
      {
        var item := items[i];
        assert items[..i + 1][..i] == items[..i];
        if !item.check.Check? || item.check.hidden {
          continue;
        }
        var exists_ := item.check.name in checks && !item.unreadable;
        if !exists_ && !showNotApplicable && item.check.notApplicable {
          continue;
        }
        var written := CreateOrUpdateOneResult(exists_, scan, item.check);
        if !written {
          return false;
        }
        if exists_ {
          stale := stale - {item.check.name};
        }
        // What becomes of its remediations does not touch the results, but may fail.
        var handled := Attempt();
        if !handled {
          return false;
        }
      }
      assert items[..|items|] == items;
      ok := DeleteStale(stale);
    }

    method DeleteStale(stale: set<string>) returns (ok: bool)
      requires OnlyWrites(calls)
      modifies this
      ensures old(attempts) <= attempts && ok == Clean(failing, old(attempts), attempts)
      ensures ok ==> checks == old(checks) - stale
      ensures WritesFirst(calls)
      ensures !ok ==> !OnlyWrites(calls)
    {
      var left := stale;
      ghost var written := calls;
      while left != {}
        invariant left <= stale && checks == old(checks) - (stale - left)
        invariant written <= calls && forall i | |written| <= i < |calls| :: calls[i].Delete?
        invariant forall i | 0 <= i < |written| :: calls[i].Write?
        invariant old(attempts) <= attempts && Clean(failing, old(attempts), attempts)
        decreases |left|
      {
        var name :| name in left;
        ok := DeleteResult(name);
        if !ok {
          assert calls[|calls| - 1].Delete?;
          return;
        }
        left := left - {name};
      }
      assert stale - left == stale;
      ok := true;
    }
  }

  /******* What is stored in the end *******/

  predicate AllReadable(items: seq<Item>) {
    forall i | i in items :: !i.unreadable
  }

  predicate HasNamed(items: seq<Item>, name: string) {
    exists i | i in items :: Named(i.check, name)
  }

  predicate HasApplicable(items: seq<Item>, name: string) {
    exists i | i in items :: Named(i.check, name) && !i.check.notApplicable
  }

  function LastNamed(items: seq<Item>, name: string): (c: Check)
    requires HasNamed(items, name)
    ensures Named(c, name) && exists i | i in items :: i.check == c
  {
    var last := items[|items| - 1];
    if Named(last.check, name) then last.check
    else
      assert items == items[..|items| - 1] + [last];
      LastNamed(items[..|items| - 1], name)
  }

  // A result is kept if it is reported, and applies, or is to be shown anyway, or was there before.
  predicate Kept(checks: Checks, showNotApplicable: bool, items: seq<Item>, name: string) {
    HasNamed(items, name) && (showNotApplicable || name in checks || HasApplicable(items, name))
  }

  ghost predicate Written(s: State, checks: Checks, scan: string, showNotApplicable: bool, items: seq<Item>,
                          name: string)
  {
    if Kept(checks, showNotApplicable, items, name) then
      && name in s.checks && name !in s.stale
      && var c := LastNamed(items, name);
         s.checks[name] == Stored(scan, c.notApplicable, c.payload)
    else
      && (name in s.checks <==> name in checks)
      && (name in checks ==> s.checks[name] == checks[name])
      && (name in s.stale <==> name in OfScan(checks, scan))
  }

  lemma {:induction false} WriteAllWrites(checks: Checks, scan: string, showNotApplicable: bool, items: seq<Item>,
                                          name: string)
    requires AllReadable(items)
    ensures Written(WriteAll(State(checks, OfScan(checks, scan)), scan, showNotApplicable, items), checks, scan,
                    showNotApplicable, items, name)
  {
    if items == [] {
    } else {
      var init, last := items[..|items| - 1], items[|items| - 1];
      assert items == init + [last];
      WriteAllWrites(checks, scan, showNotApplicable, init, name);
      assert HasNamed(items, name) <==> HasNamed(init, name) || Named(last.check, name);
      assert HasApplicable(items, name) <==>
          HasApplicable(init, name) || (Named(last.check, name) && !last.check.notApplicable);
    }
  }

  // After a run that reported something, the results of the scan are exactly the kept ones, each as
  // last reported, and the results of other scans are as they were.
  lemma StoredExactlyKept(checks: Checks, scan: string, showNotApplicable: bool, items: seq<Item>, name: string)
    requires AllReadable(items) && items != []
    ensures var after := Result(checks, scan, showNotApplicable, items);
            && (name in after <==>
                  Kept(checks, showNotApplicable, items, name) || (name in checks && checks[name].scan != scan))
            && (name in after ==>
                  after[name] == if Kept(checks, showNotApplicable, items, name)
                                 then Stored(scan, LastNamed(items, name).notApplicable,
                                             LastNamed(items, name).payload)
                                 else checks[name])
  {
    WriteAllWrites(checks, scan, showNotApplicable, items, name);
  }

  // Storing the same results again changes nothing.
  lemma StoringAgainChangesNothing(checks: Checks, scan: string, showNotApplicable: bool, items: seq<Item>)
    requires AllReadable(items)
    ensures var after := Result(checks, scan, showNotApplicable, items);
            Result(after, scan, showNotApplicable, items) == after
  {
    if items != [] {
      var after := Result(checks, scan, showNotApplicable, items);
      var again := Result(after, scan, showNotApplicable, items);
      forall name
        ensures name in again <==> name in after
        ensures name in after && name in again ==> again[name] == after[name]
      {
        StoredExactlyKept(checks, scan, showNotApplicable, items, name);
        StoredExactlyKept(after, scan, showNotApplicable, items, name);
      }
    }
  }

  // What is stored for a scan that reported nothing is left alone, so nothing is stale exactly when
  // something was reported or nothing was stored.
  lemma EmptyListKeepsLeftovers(checks: Checks, scan: string, showNotApplicable: bool, items: seq<Item>)
    requires AllReadable(items)
    ensures (forall name | name in OfScan(Result(checks, scan, showNotApplicable, items), scan) ::
               Kept(checks, showNotApplicable, items, name))
            <==> items != [] || OfScan(checks, scan) == {}
  {
    var after := Result(checks, scan, showNotApplicable, items);
    if items != [] {
      forall name | name in OfScan(after, scan)
        ensures Kept(checks, showNotApplicable, items, name)
      {
        StoredExactlyKept(checks, scan, showNotApplicable, items, name);
      }
    } else if OfScan(checks, scan) != {} {
      var name :| name in OfScan(checks, scan);
      assert name in OfScan(after, scan) && !Kept(checks, showNotApplicable, items, name);
    }
  }

  /******* Results that cannot be read *******/

  predicate HasReadable(items: seq<Item>, name: string) {
    exists i | i in items :: Named(i.check, name) && !i.unreadable
  }

  function LastRead(items: seq<Item>, name: string): (c: Check)
    requires HasReadable(items, name)
    ensures c.Check? && c.name == name
  {
    var last := items[|items| - 1];
    if Named(last.check, name) && !last.unreadable then last.check
    else
      assert items == items[..|items| - 1] + [last];
      LastRead(items[..|items| - 1], name)
  }

  // What was stored is overwritten by the items of its name that are read, and by no others.
  lemma {:induction false} OverwrittenWhenRead(s: State, scan: string, showNotApplicable: bool, items: seq<Item>,
                                               name: string)
    requires name in s.checks
    ensures var s' := WriteAll(s, scan, showNotApplicable, items);
            && name in s'.checks
            && s'.checks[name] == (if HasReadable(items, name)
                                   then Stored(scan, LastRead(items, name).notApplicable, LastRead(items, name).payload)
                                   else s.checks[name])
            && (name in s'.stale <==> name in s.stale && !HasReadable(items, name))
  {
    if items == [] {
    } else {
      var init, last := items[..|items| - 1], items[|items| - 1];
      assert items == init + [last];
      OverwrittenWhenRead(s, scan, showNotApplicable, init, name);
      assert HasReadable(items, name) <==> HasReadable(init, name) || (Named(last.check, name) && !last.unreadable);
    }
  }

  // A stored result survives exactly when it is reported by an item whose lookup worked, or is that of
  // another scan: one that could not be looked up is deleted, although it was reported and the run
  // succeeded. What survives is as last read.
  lemma SurvivesExactlyWhenRead(checks: Checks, scan: string, showNotApplicable: bool, items: seq<Item>, name: string)
    requires name in checks && items != []
    ensures var after := Result(checks, scan, showNotApplicable, items);
            && (name in after <==> HasReadable(items, name) || checks[name].scan != scan)
            && (name in after ==>
                  after[name] == if HasReadable(items, name)
                                 then Stored(scan, LastRead(items, name).notApplicable, LastRead(items, name).payload)
                                 else checks[name])
  {
    OverwrittenWhenRead(State(checks, OfScan(checks, scan)), scan, showNotApplicable, items, name);
  }
}
