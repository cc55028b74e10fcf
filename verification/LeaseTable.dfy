/** The lease table as a value: live leases by id, and the counter that hands out
    ids. The object that keeps it, with its expiry heap, is in LeaseManager. */
module LeaseTable {
  import opened Commands
  import opened SortedKeys

  datatype Lease = Lease(id: int, ttl: int, expireAt: int, keys: map<string, string>)

  datatype Table = Table(leases: map<int, Lease>, counter: int)

  const EMPTY_TABLE := Table(map[], 0)

  ghost predicate TableOk(t: Table) {
    && t.counter >= 0
    && forall id :: id in t.leases ==>
         && 1 <= id <= t.counter
         && t.leases[id].id == id
  }

  /** Every lease has a positive time-to-live and deadline. */
  ghost predicate Positive(t: Table) {
    forall id :: id in t.leases ==> t.leases[id].ttl > 0 && t.leases[id].expireAt > 0
  }

  function Granted(t: Table, ttl: int, expireAt: int): Table {
    var id := t.counter + 1;
    Table(t.leases[id := Lease(id, ttl, expireAt, map[])], id)
  }

  function Attached(t: Table, id: int, key: string, value: string): Table {
    if id in t.leases
    then t.(leases := t.leases[id := t.leases[id].(keys := t.leases[id].keys[key := value])])
    else t
  }

  function Renewed(t: Table, id: int, ttl: int, expireAt: int): Table {
    if id in t.leases
    then t.(leases := t.leases[id := t.leases[id].(ttl := ttl, expireAt := expireAt)])
    else t
  }

  function Dropped(t: Table, id: int): Table {
    t.(leases := t.leases - {id})
  }

  /** No lease holds any of the keys afterwards. */
  ghost function DetachedAll(t: Table, ks: set<string>): Table {
    t.(leases := map id | id in t.leases :: t.leases[id].(keys := t.leases[id].keys - ks))
  }

  ghost function Detached(t: Table, key: string): Table {
    DetachedAll(t, {key})
  }

  predicate Holds(t: Table, id: int, key: string) {
    id in t.leases && key in t.leases[id].keys
  }

  /** Attaching adds one key to one live lease and changes nothing else. */
  lemma AttachedHolds(t: Table, id: int, key: string, value: string, id': int, key': string)
    ensures var t' := Attached(t, id, key, value);
            && t'.counter == t.counter
            && (id' in t'.leases <==> id' in t.leases)
            && (Holds(t', id', key') <==> Holds(t, id', key') || (id' == id && key' == key && id in t.leases))
            && (Holds(t', id', key') ==>
                  t'.leases[id'].keys[key'] == if id' == id && key' == key then value else t.leases[id'].keys[key'])
            && (id' in t.leases ==>
                  && t'.leases[id'].id == t.leases[id'].id
                  && t'.leases[id'].ttl == t.leases[id'].ttl
                  && t'.leases[id'].expireAt == t.leases[id'].expireAt)
  {
  }

  ghost predicate AtMostOneHolder(t: Table, key: string) {
    forall id, id' :: Holds(t, id, key) && Holds(t, id', key) ==> id == id'
  }

  /** Taking a key from one lease that holds it. */
  function Released(t: Table, id: int, key: string): Table
    requires id in t.leases
  {
    t.(leases := t.leases[id := t.leases[id].(keys := t.leases[id].keys - {key})])
  }

  lemma ReleasedIsDetached(t: Table, id: int, key: string)
    requires Holds(t, id, key) && AtMostOneHolder(t, key)
    ensures Released(t, id, key) == Detached(t, key)
  {
    var a, b := Released(t, id, key).leases, Detached(t, key).leases;
    forall id' | id' in t.leases ensures a[id'] == b[id'] {
      if id' != id {
        assert !Holds(t, id', key);
        assert t.leases[id'].keys - {key} == t.leases[id'].keys;
      }
    }
    assert a == b;
  }

  lemma NothingToDetach(t: Table, key: string)
    requires forall id :: !Holds(t, id, key)
    ensures Detached(t, key) == t
  {
    forall id | id in t.leases ensures t.leases[id].keys - {key} == t.leases[id].keys {
      assert !Holds(t, id, key);
    }
    assert Detached(t, key).leases == t.leases;
  }

  ghost function KeysOf(t: Table, id: int): seq<string> {
    if id in t.leases then SortedSet(t.leases[id].keys.Keys) else []
  }

  lemma KeysOfElements(t: Table, id: int)
    ensures Ascending(KeysOf(t, id))
    ensures id in t.leases ==> Elements(KeysOf(t, id)) == t.leases[id].keys.Keys
  {
  }

  /** The guard of a revoke: an expiry revoke names the deadline it saw. */
  predicate RevokeApplies(t: Table, id: int, expected: int) {
    id in t.leases && (expected > 0 ==> t.leases[id].expireAt == expected)
  }

  // ----- Snapshots -----

  datatype LeaseSnapshot = LeaseSnapshot(counter: int, entries: seq<Lease>)

  ghost predicate DistinctIds(es: seq<Lease>) {
    forall i, j :: 0 <= i < j < |es| ==> es[i].id != es[j].id
  }

  ghost predicate Restorable(snap: LeaseSnapshot) {
    && snap.counter >= 0
    && DistinctIds(snap.entries)
    && forall i :: 0 <= i < |snap.entries| ==>
         && 1 <= snap.entries[i].id <= snap.counter
         && snap.entries[i].ttl > 0
         && snap.entries[i].expireAt > 0
  }

  function EntriesById(es: seq<Lease>): map<int, Lease> {
    if es == [] then map[]
    else EntriesById(es[..|es| - 1])[es[|es| - 1].id := es[|es| - 1]]
  }

  lemma {:induction false} EntriesByIdKeys(es: seq<Lease>)
    ensures forall i :: 0 <= i < |es| ==> es[i].id in EntriesById(es)
    ensures forall id :: id in EntriesById(es) ==> exists i :: 0 <= i < |es| && es[i].id == id && EntriesById(es)[id] == es[i]
  {
    if es != [] {
      var n := |es| - 1;
      var before := es[..n];
      EntriesByIdKeys(before);
      forall i | 0 <= i < |es| ensures es[i].id in EntriesById(es) {
        if i < n { assert before[i].id in EntriesById(before); }
      }
      forall id | id in EntriesById(es)
        ensures exists i :: 0 <= i < |es| && es[i].id == id && EntriesById(es)[id] == es[i]
      {
        if id != es[n].id {
          var i :| 0 <= i < |before| && before[i].id == id && EntriesById(before)[id] == before[i];
          assert es[i].id == id && EntriesById(es)[id] == es[i];
        } else {
          assert es[n].id == id && EntriesById(es)[id] == es[n];
        }
      }
    }
  }

  ghost function RestoreTable(snap: LeaseSnapshot): Option<Table> {
    if Restorable(snap) then Some(Table(EntriesById(snap.entries), snap.counter)) else None
  }

  /** The entries list the leases of the table, each once, in some order. */
  ghost predicate Lists(es: seq<Lease>, t: Table) {
    && (forall i :: 0 <= i < |es| ==> es[i].id in t.leases && es[i] == t.leases[es[i].id])
    && (forall i, j :: 0 <= i < j < |es| ==> es[i].id != es[j].id)
    && (forall id :: id in t.leases ==> t.leases[id] in es)
  }

  /** Whatever order the leases were written in, restoring gives the table back. */
  lemma TableRoundTrip(t: Table, es: seq<Lease>)
    requires TableOk(t) && Positive(t)
    requires Lists(es, t)
    ensures RestoreTable(LeaseSnapshot(t.counter, es)) == Some(t)
  {
    var m := EntriesById(es);
    EntriesByIdKeys(es);
    forall id | id in t.leases ensures id in m {
      var i :| 0 <= i < |es| && es[i] == t.leases[id];
    }
    forall id | id in m ensures id in t.leases && m[id] == t.leases[id] {
      var i :| 0 <= i < |es| && es[i].id == id && m[id] == es[i];
    }
    assert m == t.leases;
  }

  /** Restoring accepts exactly the snapshots that list some well-formed table with
      positive times, and then gives that table. */
  lemma RestoresWhatIsListed(snap: LeaseSnapshot)
    ensures RestoreTable(snap).Some? <==>
              exists t :: TableOk(t) && Positive(t) && t.counter == snap.counter && Lists(snap.entries, t)
    ensures RestoreTable(snap).Some? ==> Lists(snap.entries, RestoreTable(snap).value)
  {
    forall t | TableOk(t) && Positive(t) && t.counter == snap.counter && Lists(snap.entries, t)
      ensures RestoreTable(snap).Some?
    {
      TableRoundTrip(t, snap.entries);
      assert snap == LeaseSnapshot(t.counter, snap.entries);
    }
    if Restorable(snap) {
      var t := RestoreTable(snap).value;
      EntriesByIdKeys(snap.entries);
      forall id | id in t.leases ensures t.leases[id] in snap.entries && t.leases[id].id == id {
        var i :| 0 <= i < |snap.entries| && snap.entries[i].id == id && t.leases[id] == snap.entries[i];
      }
      forall i | 0 <= i < |snap.entries| ensures t.leases[snap.entries[i].id] == snap.entries[i] {
        var id := snap.entries[i].id;
        var j :| 0 <= j < |snap.entries| && snap.entries[j].id == id && t.leases[id] == snap.entries[j];
        assert i == j;
      }
      assert TableOk(t) && Positive(t) && Lists(snap.entries, t);
    }
  }
}
