/** The objects parsed from a bundle: each is created or updated and marked with the nonce of the
    parse, and what carries another nonce is swept afterwards. */
module BundleStore {
  import opened ApiCalls
  import opened Permutations

  // The kind stands for the type of the objects; names are those in the cluster.
  datatype Key = Key(kind: string, name: string)

  datatype Stored = Stored(bundle: string, nonce: string, payload: string)

  type Objects = map<Key, Stored>

  datatype Parsed = Parsed(kind: string, id: string, payload: string)

  function GetPrefixedName(bundle: string, name: string): string {
    bundle + "-" + name
  }

  function KeyOf(bundle: string, p: Parsed): Key {
    Key(p.kind, GetPrefixedName(bundle, p.id))
  }

  // An update changes annotations and payload. The label that tells the bundle stays.
  function Put(objects: Objects, bundle: string, nonce: string, p: Parsed): Objects {
    var key := KeyOf(bundle, p);
    objects[key := Stored(if key in objects then objects[key].bundle else bundle, nonce, p.payload)]
  }

  function PutAll(objects: Objects, bundle: string, nonce: string, order: seq<Parsed>): Objects {
    if order == [] then objects
    else Put(PutAll(objects, bundle, nonce, order[..|order| - 1]), bundle, nonce, order[|order| - 1])
  }

  predicate Obsolete(o: Stored, bundle: string, nonce: string) {
    o.bundle == bundle && o.nonce != nonce
  }

  function Sweep(objects: Objects, kind: string, bundle: string, nonce: string): Objects {
    map key | key in objects && !(key.kind == kind && Obsolete(objects[key], bundle, nonce)) :: objects[key]
  }

  // All objects of one kind that were parsed are put, in some order, and then the kind is swept.
  function Parse(objects: Objects, kind: string, bundle: string, nonce: string, order: seq<Parsed>): Objects {
    Sweep(PutAll(objects, bundle, nonce, order), kind, bundle, nonce)
  }

  /******* The client *******/

  class Client {
    var objects: Objects
    // Every call to the API is an attempt; those whose number is in `failing` fail.
    const failing: set<nat>
    var attempts: nat

    constructor (objects: Objects, failing: set<nat>)
      ensures this.objects == objects && this.failing == failing && attempts == 0
    {
      this.objects, this.failing, this.attempts := objects, failing, 0;
    }

    method Attempt() returns (ok: bool)
      modifies `attempts
      ensures attempts == old(attempts) + 1 && ok == Clean(failing, old(attempts), attempts)
    {
      ok := attempts !in failing;
      attempts := attempts + 1;
    }

    method CreateOrUpdate(bundle: string, nonce: string, p: Parsed) returns (ok: bool)
      modifies this
      ensures old(attempts) <= attempts && ok == Clean(failing, old(attempts), attempts)
      ensures objects == if ok then Put(old(objects), bundle, nonce, p) else old(objects)
    {
      var key := KeyOf(bundle, p);
      var looked := Attempt();
      if !looked {
        return false;
      }
      var obj := Stored(bundle, nonce, p.payload);
      if key !in objects {
        ok := Attempt();
        if ok {
          objects := objects[key := obj];
        }
        return;
      }
      var stored := objects[key];
      stored := stored.(nonce := obj.nonce, payload := obj.payload);
      ok := Attempt();
      if ok {
        objects := objects[key := stored];
      }
    }

    // Goes through the objects of the bundle; a failure leaves the rest.
    method DeleteObsoleteItems(kind: string, bundle: string, nonce: string) returns (ok: bool)
      modifies this
      ensures old(attempts) <= attempts && ok == Clean(failing, old(attempts), attempts)
      ensures ok ==> objects == Sweep(old(objects), kind, bundle, nonce)
      ensures forall key | key in old(objects) && key !in objects ::
                key.kind == kind && Obsolete(old(objects)[key], bundle, nonce)
      ensures forall key | key in objects :: key in old(objects) && objects[key] == old(objects)[key]
    {
      var listed := Attempt();
      if !listed {
        return false;
      }
      var left := set key | key in objects && key.kind == kind && objects[key].bundle == bundle;
      while left != {}
        invariant SweptBut(old(objects), objects, left, kind, bundle, nonce)
        invariant old(attempts) <= attempts && Clean(failing, old(attempts), attempts)
        decreases |left|
      {
        var key :| key in left;
        SweptNext(old(objects), objects, left, kind, bundle, nonce, key);
        if objects[key].nonce != nonce {
          var deleted := Attempt();
          if !deleted {
            return false;
          }
          objects := objects - {key};
        }
        left := left - {key};
      }
      ok := true;
    }
  }

  // The sweep on its way: the objects in `left` are still to be looked at.
  ghost predicate SweptBut(before: Objects, objects: Objects, left: set<Key>, kind: string, bundle: string,
                           nonce: string)
  {
    && left <= objects.Keys
    && (forall key | key in left :: key.kind == kind && objects[key].bundle == bundle)
    && (forall key | key in objects :: key in before && objects[key] == before[key])
    && (forall key | key in before && key !in objects :: key.kind == kind && Obsolete(before[key], bundle, nonce))
    && (forall key | key in objects && key !in left :: !(key.kind == kind && Obsolete(objects[key], bundle, nonce)))
  }

  lemma SweptNext(before: Objects, objects: Objects, left: set<Key>, kind: string, bundle: string, nonce: string,
                  key: Key)
    requires SweptBut(before, objects, left, kind, bundle, nonce) && key in left
    ensures SweptBut(before, if objects[key].nonce != nonce then objects - {key} else objects, left - {key},
                     kind, bundle, nonce)
  {
  }

  /******* What is stored after a parse *******/

  // The name of an object in the cluster tells the bundle and what it is called there.
  predicate Named(order: seq<Parsed>, bundle: string, key: Key) {
    exists p | p in order :: p.kind == key.kind && bundle + "-" + p.id == key.name
  }

  function LastNamed(order: seq<Parsed>, bundle: string, key: Key): (p: Parsed)
    requires Named(order, bundle, key)
    ensures p in order && p.kind == key.kind && bundle + "-" + p.id == key.name
  {
    var last := order[|order| - 1];
    if last.kind == key.kind && bundle + "-" + last.id == key.name then last
    else
      assert order == order[..|order| - 1] + [last];
      LastNamed(order[..|order| - 1], bundle, key)
  }

  function Owner(objects: Objects, bundle: string, key: Key): string {
    if key in objects then objects[key].bundle else bundle
  }

  lemma {:induction false} PutAllPuts(objects: Objects, bundle: string, nonce: string, order: seq<Parsed>, key: Key)
    ensures var after := PutAll(objects, bundle, nonce, order);
            if Named(order, bundle, key) then
              && key in after
              && after[key] == Stored(Owner(objects, bundle, key), nonce, LastNamed(order, bundle, key).payload)
            else (key in after <==> key in objects) && (key in objects ==> after[key] == objects[key])
  {
    if order == [] {
    } else {
      var init, last := order[..|order| - 1], order[|order| - 1];
      assert order == init + [last];
      PutAllPuts(objects, bundle, nonce, init, key);
      assert Named(order, bundle, key) <==> Named(init, bundle, key) || KeyOf(bundle, last) == key;
    }
  }

  predicate OfKind(order: seq<Parsed>, kind: string) {
    forall p | p in order :: p.kind == kind
  }

  ghost predicate FreshNonce(objects: Objects, nonce: string) {
    forall key | key in objects :: objects[key].nonce != nonce
  }

  // With a fresh nonce, an object of the kind is there afterwards exactly if it was parsed, or
  // belongs to another bundle; a parsed one has the payload parsed last under its name, and
  // nothing else has changed.
  lemma ParseStores(objects: Objects, kind: string, bundle: string, nonce: string, order: seq<Parsed>, key: Key)
    requires FreshNonce(objects, nonce) && OfKind(order, kind)
    ensures var after := Parse(objects, kind, bundle, nonce, order);
            && (key in after <==>
                  Named(order, bundle, key) || (key in objects && (key.kind != kind || objects[key].bundle != bundle)))
            && (key in after ==>
                  after[key] == (if Named(order, bundle, key)
                                 then Stored(Owner(objects, bundle, key), nonce, LastNamed(order, bundle, key).payload)
                                 else objects[key]))
  {
    PutAllPuts(objects, bundle, nonce, order, key);
  }

  // Some parsed object has the name of an object that another bundle owns.
  predicate Collides(objects: Objects, bundle: string, order: seq<Parsed>) {
    exists p | p in order :: KeyOf(bundle, p) in objects && objects[KeyOf(bundle, p)].bundle != bundle
  }

  ghost predicate OthersUntouched(objects: Objects, after: Objects, bundle: string) {
    forall key | key in objects && objects[key].bundle != bundle :: key in after && after[key] == objects[key]
  }

  ghost predicate ExactlyParsed(after: Objects, kind: string, bundle: string, order: seq<Parsed>) {
    forall key: Key | key.kind == kind :: key in after && after[key].bundle == bundle <==> Named(order, bundle, key)
  }

  // The other bundles keep what they have, and the bundle has exactly what was parsed, exactly when
  // no names collide: an object that another bundle owns is overwritten and stays with it.
  lemma SeparateExactlyWithoutCollision(objects: Objects, kind: string, bundle: string, nonce: string,
                                        order: seq<Parsed>)
    requires FreshNonce(objects, nonce) && OfKind(order, kind)
    ensures OthersUntouched(objects, Parse(objects, kind, bundle, nonce, order), bundle) <==>
            !Collides(objects, bundle, order)
    ensures ExactlyParsed(Parse(objects, kind, bundle, nonce, order), kind, bundle, order) <==>
            !Collides(objects, bundle, order)
  {
    var after := Parse(objects, kind, bundle, nonce, order);
    if Collides(objects, bundle, order) {
      var p :| p in order && KeyOf(bundle, p) in objects && objects[KeyOf(bundle, p)].bundle != bundle;
      ParseStores(objects, kind, bundle, nonce, order, KeyOf(bundle, p));
      assert Named(order, bundle, KeyOf(bundle, p));
      assert after[KeyOf(bundle, p)].nonce == nonce && KeyOf(bundle, p).kind == kind;
    } else {
      forall key: Key
        ensures key in objects && objects[key].bundle != bundle ==> key in after && after[key] == objects[key]
        ensures key.kind == kind ==> (key in after && after[key].bundle == bundle <==> Named(order, bundle, key))
      {
        ParseStores(objects, kind, bundle, nonce, order, key);
      }
    }
  }

  /******* The order of the workers *******/

  // What is parsed twice under one name is the same.
  predicate Unambiguous(order: seq<Parsed>) {
    forall p, q | p in order && q in order && p.kind == q.kind && p.id == q.id :: p.payload == q.payload
  }

  ghost predicate SameInEveryOrder(objects: Objects, bundle: string, nonce: string, order: seq<Parsed>) {
    forall other: seq<Parsed> | multiset(other) == multiset(order) ::
      PutAll(objects, bundle, nonce, other) == PutAll(objects, bundle, nonce, order)
  }

  lemma PrefixedNamesAreUnique(bundle: string, p: Parsed, q: Parsed)
    ensures KeyOf(bundle, p) == KeyOf(bundle, q) <==> p.kind == q.kind && p.id == q.id
  {
    var prefix := bundle + "-";
    assert GetPrefixedName(bundle, p.id)[|prefix|..] == p.id;
    assert GetPrefixedName(bundle, q.id)[|prefix|..] == q.id;
  }

  // It does not matter in which order the workers get through the items exactly when no name is
  // parsed twice with different payloads.
  lemma OrderIndependence(objects: Objects, bundle: string, nonce: string, order: seq<Parsed>)
    ensures SameInEveryOrder(objects, bundle, nonce, order) <==> Unambiguous(order)
  {
    if Unambiguous(order) {
      forall other: seq<Parsed> | multiset(other) == multiset(order)
        ensures PutAll(objects, bundle, nonce, other) == PutAll(objects, bundle, nonce, order)
      {
        UnambiguousOrder(objects, bundle, nonce, order, other);
      }
    }
    if SameInEveryOrder(objects, bundle, nonce, order) {
      forall p, q | p in order && q in order && p.kind == q.kind && p.id == q.id
        ensures p.payload == q.payload
      {
        LastDecides(objects, bundle, nonce, order, p);
        LastDecides(objects, bundle, nonce, order, q);
        PrefixedNamesAreUnique(bundle, p, q);
      }
    }
  }

  lemma UnambiguousOrder(objects: Objects, bundle: string, nonce: string, order: seq<Parsed>, other: seq<Parsed>)
    requires Unambiguous(order) && multiset(other) == multiset(order)
    ensures PutAll(objects, bundle, nonce, other) == PutAll(objects, bundle, nonce, order)
  {
    SameMembers(order, other);
    var a, b := PutAll(objects, bundle, nonce, order), PutAll(objects, bundle, nonce, other);
    forall key
      ensures key in a <==> key in b
      ensures key in a && key in b ==> a[key] == b[key]
    {
      PutAllPuts(objects, bundle, nonce, order, key);
      PutAllPuts(objects, bundle, nonce, other, key);
      assert Named(order, bundle, key) <==> Named(other, bundle, key);
      if Named(order, bundle, key) {
        PrefixedNamesAreUnique(bundle, LastNamed(order, bundle, key), LastNamed(other, bundle, key));
      }
    }
  }

  lemma LastDecides(objects: Objects, bundle: string, nonce: string, order: seq<Parsed>, p: Parsed)
    requires SameInEveryOrder(objects, bundle, nonce, order) && p in order
    ensures KeyOf(bundle, p) in PutAll(objects, bundle, nonce, order)
    ensures PutAll(objects, bundle, nonce, order)[KeyOf(bundle, p)].payload == p.payload
  {
    var init := Without(order, p);
    var other := init + [p];
    assert PutAll(objects, bundle, nonce, other) == PutAll(objects, bundle, nonce, order);
  }

  lemma Without(order: seq<Parsed>, p: Parsed) returns (init: seq<Parsed>)
    requires p in order
    ensures multiset(init + [p]) == multiset(order)
  {
    var i :| 0 <= i < |order| && order[i] == p;
    init := order[..i] + order[i + 1..];
    assert order == order[..i] + [p] + order[i + 1..];
  }

  /******* A parse that failed *******/

  // If only some of the items were put before the sweep, the objects of the others are deleted
  // although they are in the bundle.
  lemma SweepAfterFailureDeletes(objects: Objects, kind: string, bundle: string, nonce: string, order: seq<Parsed>,
                                 done: seq<Parsed>, p: Parsed)
    requires FreshNonce(objects, nonce) && OfKind(order, kind) && done <= order && p in order
    requires KeyOf(bundle, p) in objects && objects[KeyOf(bundle, p)].bundle == bundle
    ensures KeyOf(bundle, p) in Parse(objects, kind, bundle, nonce, done) <==> Named(done, bundle, KeyOf(bundle, p))
  {
    ParseStores(objects, kind, bundle, nonce, done, KeyOf(bundle, p));
  }
}
