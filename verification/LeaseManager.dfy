/** The lease manager object: the lease map plus a binary min-heap of deadlines
    kept in an array slice. The heap is proved to be exactly the map. */
module LeaseManager {
  import opened Commands
  import opened SortedKeys
  import opened LeaseTable

  datatype Item = Item(id: int, expireAt: int)

  function Parent(j: int): int {
    (j - 1) / 2
  }

  ghost predicate InOrder(h: seq<Item>, j: int)
    requires 0 < j < |h|
  {
    h[Parent(j)].expireAt <= h[j].expireAt
  }

  ghost predicate MinHeap(h: seq<Item>) {
    forall j :: 0 < j < |h| ==> InOrder(h, j)
  }

  /** A heap from index lo on, except that h[i] may be too small for its place. */
  ghost predicate HeapButUp(h: seq<Item>, lo: int, i: int) {
    && (forall j :: 0 < j < |h| && lo <= Parent(j) && j != i ==> InOrder(h, j))
    && (forall j :: 0 < i && lo <= Parent(i) && 0 < j < |h| && Parent(j) == i ==>
          h[Parent(i)].expireAt <= h[j].expireAt)
  }

  /** A heap from index lo on, except that h[i] may be out of place either way. */
  ghost predicate HeapBut(h: seq<Item>, lo: int, i: int) {
    && (forall j :: 0 < j < |h| && lo <= Parent(j) && j != i && Parent(j) != i ==> InOrder(h, j))
    && (forall j :: 0 < i && lo <= Parent(i) && 0 < j < |h| && Parent(j) == i ==>
          h[Parent(i)].expireAt <= h[j].expireAt)
  }

  /** A heap from index lo on, except that h[i] may be too large for its place. */
  ghost predicate HeapButDown(h: seq<Item>, lo: int, i: int) {
    && (forall j :: 0 < j < |h| && lo <= Parent(j) && Parent(j) != i ==> InOrder(h, j))
    && (forall j :: 0 < i && lo <= Parent(i) && 0 < j < |h| && Parent(j) == i ==>
          h[Parent(i)].expireAt <= h[j].expireAt)
  }

  function Swap(h: seq<Item>, i: int, j: int): seq<Item>
    requires 0 <= i < |h| && 0 <= j < |h|
  {
    h[i := h[j]][j := h[i]]
  }

  /** The items a heap over these leases must hold, each once. */
  ghost function Items(leases: map<int, Lease>): set<Item> {
    set id | id in leases :: Item(id, leases[id].expireAt)
  }

  ghost predicate Agrees(h: seq<Item>, leases: map<int, Lease>) {
    multiset(h) == multiset(Items(leases))
  }

  /** The last item takes the place of the one at i. */
  function TakeLastTo(h: seq<Item>, i: nat): seq<Item>
    requires i < |h|
  {
    h[i := h[|h| - 1]][..|h| - 1]
  }

  // ----- The heap and the map -----

  lemma AgreesPermuted(h: seq<Item>, h': seq<Item>, leases: map<int, Lease>)
    requires Agrees(h, leases) && multiset(h') == multiset(h)
    ensures Agrees(h', leases)
  {
  }

  lemma EmptyAgrees()
    ensures Agrees([], map[])
  {
  }

  lemma AgreesIndex(h: seq<Item>, leases: map<int, Lease>, id: int) returns (i: nat)
    requires Agrees(h, leases) && id in leases
    ensures i < |h| && h[i] == Item(id, leases[id].expireAt)
  {
    assert Item(id, leases[id].expireAt) in Items(leases);
    assert Item(id, leases[id].expireAt) in multiset(h);
    i :| 0 <= i < |h| && h[i] == Item(id, leases[id].expireAt);
  }

  lemma AgreesItem(h: seq<Item>, leases: map<int, Lease>, i: nat)
    requires Agrees(h, leases) && i < |h|
    ensures h[i].id in leases && h[i].expireAt == leases[h[i].id].expireAt
  {
    assert h[i] in multiset(h);
    assert h[i] in Items(leases);
  }

  lemma ItemsSet(leases: map<int, Lease>, id: int, lease: Lease)
    ensures Items(leases[id := lease]) == Items(leases - {id}) + {Item(id, lease.expireAt)}
  {
    var a := leases[id := lease];
    assert Item(id, a[id].expireAt) in Items(a);
    forall id' | id' in leases && id' != id
      ensures Item(id', leases[id'].expireAt) in Items(a) && Item(id', leases[id'].expireAt) in Items(leases - {id})
    {
      assert id' in a && id' in leases - {id};
    }
  }

  lemma ItemsDrop(leases: map<int, Lease>, id: int)
    requires id in leases
    ensures Items(leases - {id}) == Items(leases) - {Item(id, leases[id].expireAt)}
  {
    forall it | it in Items(leases) && it != Item(id, leases[id].expireAt) ensures it in Items(leases - {id}) {
      assert it.id in leases - {id};
    }
  }

  lemma AgreesPush(h: seq<Item>, leases: map<int, Lease>, id: int, lease: Lease)
    requires Agrees(h, leases) && id !in leases
    ensures Agrees(h + [Item(id, lease.expireAt)], leases[id := lease])
  {
    ItemsSet(leases, id, lease);
    assert leases - {id} == leases;
    assert Item(id, lease.expireAt) !in Items(leases);
    assert multiset(h + [Item(id, lease.expireAt)]) == multiset(h) + multiset{Item(id, lease.expireAt)};
  }

  lemma AgreesUpdate(h: seq<Item>, leases: map<int, Lease>, i: nat, id: int, lease: Lease)
    requires Agrees(h, leases) && id in leases
    requires i < |h| && h[i].id == id
    ensures Agrees(h[i := Item(id, lease.expireAt)], leases[id := lease])
  {
    AgreesItem(h, leases, i);
    ItemsSet(leases, id, lease);
    ItemsDrop(leases, id);
    var x := Item(id, lease.expireAt);
    assert x !in Items(leases - {id});
    assert multiset(h[i := x]) == multiset(h) - multiset{h[i]} + multiset{x};
  }

  lemma CancelOne(a: multiset<Item>, b: multiset<Item>, x: Item)
    requires a + multiset{x} == b + multiset{x}
    ensures a == b
  {
    forall z ensures a[z] == b[z] {
      assert (a + multiset{x})[z] == (b + multiset{x})[z];
    }
  }

  lemma UnorderedRemove(h: seq<Item>, i: nat)
    requires i < |h|
    ensures multiset(TakeLastTo(h, i)) == multiset(h) - multiset{h[i]}
  {
    var n := |h| - 1;
    var moved := h[i := h[n]];
    assert moved == moved[..n] + [moved[n]];
    assert multiset(moved) == multiset(h) - multiset{h[i]} + multiset{h[n]};
    assert multiset(moved) == multiset(moved[..n]) + multiset{h[n]};
    CancelOne(multiset(moved[..n]), multiset(h) - multiset{h[i]}, h[n]);
  }

  lemma AgreesRemove(h: seq<Item>, leases: map<int, Lease>, i: nat)
    requires Agrees(h, leases) && i < |h|
    ensures Agrees(TakeLastTo(h, i), leases - {h[i].id})
  {
    AgreesItem(h, leases, i);
    UnorderedRemove(h, i);
    ItemsDrop(leases, h[i].id);
  }

  lemma MinAtRoot(h: seq<Item>, i: nat)
    requires MinHeap(h) && i < |h|
    ensures h[0].expireAt <= h[i].expireAt
    decreases i
  {
    if i > 0 {
      assert InOrder(h, i);
      MinAtRoot(h, Parent(i));
    }
  }

  lemma SameDeadlines(a: map<int, Lease>, b: map<int, Lease>)
    requires a.Keys == b.Keys
    requires forall id :: id in a ==> a[id].expireAt == b[id].expireAt
    ensures Items(a) == Items(b)
  {
    forall id | id in a ensures Item(id, a[id].expireAt) in Items(b) && Item(id, b[id].expireAt) in Items(a) {
      assert id in b;
    }
  }

  lemma FreshEntry(es: seq<Lease>, i: nat)
    requires i < |es|
    ensures EntriesById(es[..i + 1]) == EntriesById(es[..i])[es[i].id := es[i]]
    ensures es[i].id in EntriesById(es[..i]) ==> !DistinctIds(es)
    ensures es[i].id !in EntriesById(es[..i]) && DistinctIds(es[..i]) ==> DistinctIds(es[..i + 1])
  {
    assert es[..i + 1][..i] == es[..i];
    EntriesByIdKeys(es[..i]);
    if es[i].id in EntriesById(es[..i]) {
      var j :| 0 <= j < i && es[..i][j].id == es[i].id;
    } else {
      forall j | 0 <= j < i ensures es[j].id != es[i].id {
        assert es[..i][j].id in EntriesById(es[..i]);
      }
      if DistinctIds(es[..i]) {
        forall j, k | 0 <= j < k < i ensures es[j].id != es[k].id {
          assert es[..i][j].id != es[..i][k].id;
        }
      }
    }
  }

  /** Replacing one item leaves a heap out of order at that place only. */
  lemma ReplacedInHeap(h: seq<Item>, i: nat, x: Item)
    requires MinHeap(h) && i < |h|
    ensures HeapBut(h[i := x], 0, i)
  {
    forall j | 0 < i && 0 < j < |h| && Parent(j) == i ensures h[Parent(i)].expireAt <= h[j].expireAt {
      assert InOrder(h, j) && InOrder(h, i);
    }
    forall j | 0 < j < |h| && j != i && Parent(j) != i ensures InOrder(h[i := x], j) {
      assert InOrder(h, j);
    }
  }

  lemma Floated(h: seq<Item>, i: nat)
    requires 0 < i < |h| && HeapButUp(h, 0, i)
    requires h[i].expireAt < h[Parent(i)].expireAt
    ensures HeapButUp(Swap(h, i, Parent(i)), 0, Parent(i))
  {
    var p := Parent(i);
    var h' := Swap(h, i, p);
    forall j | 0 < j < |h| && j != p ensures InOrder(h', j) {
      if j != i { assert InOrder(h, j); }
    }
    if p > 0 {
      assert InOrder(h, p);
      forall j | 0 < j < |h| && Parent(j) == p ensures h'[Parent(p)].expireAt <= h'[j].expireAt {
        if j != i { assert InOrder(h, j); }
      }
    }
  }

  lemma Sunk(h: seq<Item>, lo: nat, i: nat, s: nat)
    requires lo <= i < s < |h| && Parent(s) == i && HeapBut(h, lo, i)
    requires h[s].expireAt < h[i].expireAt
    requires forall j :: 0 < j < |h| && Parent(j) == i ==> h[s].expireAt <= h[j].expireAt
    ensures HeapButDown(Swap(h, i, s), lo, s)
  {
    var h' := Swap(h, i, s);
    forall j | 0 < j < |h| && lo <= Parent(j) && Parent(j) != s ensures InOrder(h', j) {
      if j != i && Parent(j) != i { assert InOrder(h, j); }
    }
    forall j | 0 < j < |h| && Parent(j) == s ensures h'[Parent(s)].expireAt <= h'[j].expireAt {
      assert InOrder(h, j);
    }
  }

  lemma Settled(h: seq<Item>, lo: nat, start: nat, i: nat)
    requires lo <= start <= i < |h| && HeapBut(h, lo, i)
    requires i > start ==> HeapButDown(h, lo, i)
    requires forall j :: 0 < j < |h| && Parent(j) == i ==> InOrder(h, j)
    ensures HeapButUp(h, lo, start)
  {
    if i > start && 0 < start && lo <= Parent(start) {
      assert InOrder(h, start);
      forall j | 0 < j < |h| && Parent(j) == start ensures h[Parent(start)].expireAt <= h[j].expireAt {
        assert InOrder(h, j);
      }
    }
  }

  lemma SwapKeepsItems(h: seq<Item>, i: nat, j: nat)
    requires i < |h| && j < |h|
    ensures multiset(Swap(h, i, j)) == multiset(h)
  {
  }

  lemma RemovedInHeap(h: seq<Item>, i: nat)
    requires MinHeap(h) && i < |h|
    ensures i < |h| - 1 ==> HeapBut(TakeLastTo(h, i), 0, i)
    ensures i == |h| - 1 ==> MinHeap(TakeLastTo(h, i))
  {
    var moved := h[i := h[|h| - 1]];
    var h' := TakeLastTo(h, i);
    ReplacedInHeap(h, i, h[|h| - 1]);
    forall j | 0 < j < |h'| && j != i && Parent(j) != i ensures InOrder(h', j) {
      assert InOrder(moved, j);
    }
  }

  class LeaseManager {
    var leases: map<int, Lease>
    var leaseID: int
    var heap: seq<Item>

    ghost function State(): Table
      reads this
    {
      Table(leases, leaseID)
    }

    /** The heap is a min-heap on deadlines and holds exactly one item per lease. */
    ghost predicate Valid()
      reads this
    {
      && MinHeap(heap)
      && Agrees(heap, leases)
      && forall id :: id in leases ==> id <= leaseID
    }

    constructor ()
      ensures Valid() && State() == EMPTY_TABLE
    {
      leases := map[];
      leaseID := 0;
      heap := [];
    }

    /** Moves the item at start towards the root while it is smaller than its parent. */
    method BubbleUp(start: nat)
      requires start < |heap|
      requires HeapButUp(heap, 0, start)
      modifies this`heap
      ensures MinHeap(heap)
      ensures multiset(heap) == multiset(old(heap))
    {
      var i := start;
      while i > 0
        invariant i < |heap|
        invariant HeapButUp(heap, 0, i)
        invariant multiset(heap) == multiset(old(heap))
      {
        var parent := (i - 1) / 2;
        if heap[i].expireAt >= heap[parent].expireAt {
          break;
        }
        Floated(heap, i);
        SwapKeepsItems(heap, i, parent);
        heap := Swap(heap, i, parent);
        i := parent;
      }
    }

    /** Moves the item at start away from the root while a child is smaller. */
    method BubbleDown(start: nat, ghost lo: nat)
      requires lo <= start < |heap|
      requires HeapBut(heap, lo, start)
      modifies this`heap
      ensures HeapButUp(heap, lo, start)
      ensures multiset(heap) == multiset(old(heap)) && |heap| == |old(heap)|
    {
      var i := start;
      var n := |heap|;
      while true
        invariant start <= i < |heap| == n
        invariant HeapBut(heap, lo, i)
        invariant i > start ==> HeapButDown(heap, lo, i)
        invariant multiset(heap) == multiset(old(heap))
        decreases n - i
      {
        var smallest := SmallestOfThree(i);
        if smallest == i {
          break;
        }
        Sunk(heap, lo, i, smallest);
        SwapKeepsItems(heap, i, smallest);
        heap := Swap(heap, i, smallest);
        i := smallest;
      }
      Settled(heap, lo, start, i);
    }

    /** The index of the smallest among an item and its children. */
    method SmallestOfThree(i: nat) returns (smallest: nat)
      requires i < |heap|
      ensures i <= smallest < |heap|
      ensures smallest != i ==> Parent(smallest) == i && heap[smallest].expireAt < heap[i].expireAt
      ensures forall j :: 0 < j < |heap| && Parent(j) == i ==> heap[smallest].expireAt <= heap[j].expireAt
    {
      var left := 2 * i + 1;
      var right := 2 * i + 2;
      smallest := i;
      if left < |heap| && heap[left].expireAt < heap[smallest].expireAt {
        smallest := left;
      }
      if right < |heap| && heap[right].expireAt < heap[smallest].expireAt {
        smallest := right;
      }
      assert forall j :: Parent(j) == i ==> j == left || j == right || j == 0;
    }

    /** Restores order after the item at i was replaced. */
    method Reorder(i: nat)
      requires i < |heap|
      requires HeapBut(heap, 0, i)
      modifies this`heap
      ensures MinHeap(heap)
      ensures multiset(heap) == multiset(old(heap))
    {
      BubbleDown(i, 0);
      BubbleUp(i);
    }

    method GrantUntil(ttl: int, expireAt: int) returns (id: int)
      requires Valid()
      modifies this
      ensures Valid()
      ensures State() == Granted(old(State()), ttl, expireAt)
      ensures id == old(leaseID) + 1 && id !in old(leases)
    {
      hide Agrees;
      leaseID := leaseID + 1;
      id := leaseID;
      var lease := Lease(id, ttl, expireAt, map[]);
      AgreesPush(heap, leases, id, lease);
      leases := leases[id := lease];
      ghost var before := heap;
      heap := heap + [Item(id, expireAt)];
      forall j | 0 < j < |before| ensures InOrder(heap, j) { assert InOrder(before, j); }
      ghost var pushed := heap;
      BubbleUp(|heap| - 1);
      AgreesPermuted(pushed, heap, leases);
    }

    method Attach(id: int, key: string, value: string)
      requires Valid()
      modifies this`leases
      ensures Valid()
      ensures State() == Attached(old(State()), id, key, value)
    {
      if id !in leases {
        return;
      }
      SameDeadlines(leases, leases[id := leases[id].(keys := leases[id].keys[key := value])]);
      leases := leases[id := leases[id].(keys := leases[id].keys[key := value])];
    }

    /** Takes the key from the first lease the map walk finds holding it. */
    method Revoke(key: string) returns (id: int)
      requires Valid()
      modifies this`leases
      ensures Valid()
      ensures (forall i :: !Holds(old(State()), i, key)) ==> id == 0 && State() == old(State())
      ensures (exists i :: Holds(old(State()), i, key)) ==>
                Holds(old(State()), id, key) && State() == Released(old(State()), id, key)
      ensures AtMostOneHolder(old(State()), key) ==> State() == Detached(old(State()), key)
    {
      var rest := leases.Keys;
      while rest != {}
        invariant rest <= leases.Keys
        invariant forall i :: Holds(State(), i, key) ==> i in rest
        invariant State() == old(State())
      {
        var i := AnyOf(rest);
        rest := rest - {i};
        if key in leases[i].keys {
          assert Holds(State(), i, key);
          if AtMostOneHolder(State(), key) {
            ReleasedIsDetached(State(), i, key);
          }
          SameDeadlines(leases, leases[i := leases[i].(keys := leases[i].keys - {key})]);
          leases := leases[i := leases[i].(keys := leases[i].keys - {key})];
          return i;
        }
      }
      NothingToDetach(State(), key);
      return 0;
    }

    method KeepAliveUntil(id: int, ttl: int, expireAt: int) returns (ok: bool)
      requires Valid()
      modifies this
      ensures Valid()
      ensures ok <==> id in old(leases)
      ensures State() == Renewed(old(State()), id, ttl, expireAt)
    {
      if id !in leases {
        return false;
      }
      var i := FindItem(id);
      var renewed := leases[id].(ttl := ttl, expireAt := expireAt);
      AgreesUpdate(heap, leases, i, id, renewed);
      ReplacedInHeap(heap, i, Item(id, expireAt));
      leases := leases[id := renewed];
      heap := heap[i := Item(id, expireAt)];
      Reorder(i);
      return true;
    }

    /** The linear search for a lease's heap item. */
    method FindItem(id: int) returns (i: nat)
      requires Valid() && id in leases
      ensures i < |heap| && heap[i].id == id
    {
      ghost var at := AgreesIndex(heap, leases, id);
      i := 0;
      while heap[i].id != id
        invariant i <= at < |heap|
        decreases at - i
      {
        i := i + 1;
      }
    }

    method RevokeLease(id: int) returns (keys: seq<string>)
      requires Valid()
      modifies this
      ensures Valid()
      ensures keys == KeysOf(old(State()), id)
      ensures State() == Dropped(old(State()), id)
    {
      if id !in leases {
        assert leases - {id} == leases;
        return [];
      }
      var unsorted := HeldKeys(leases[id]);
      keys := Sort(unsorted);
      SortIsCanonical(unsorted);
      var i := FindItem(id);
      RemoveAt(i);
    }

    /** Removes a lease only if it still has the deadline the caller saw. */
    method RevokeLeaseIfMatches(id: int, expected: int) returns (keys: seq<string>)
      requires Valid()
      modifies this
      ensures Valid()
      ensures if id in old(leases) && old(leases)[id].expireAt == expected
              then keys == KeysOf(old(State()), id) && State() == Dropped(old(State()), id)
              else keys == [] && State() == old(State())
    {
      if id !in leases || leases[id].expireAt != expected {
        return [];
      }
      keys := RevokeLease(id);
    }

    method HeldKeys(lease: Lease) returns (keys: seq<string>)
      ensures Distinct(keys) && Elements(keys) == lease.keys.Keys
    {
      keys := [];
      var rest := lease.keys.Keys;
      while rest != {}
        invariant rest <= lease.keys.Keys
        invariant Distinct(keys) && Elements(keys) == lease.keys.Keys - rest
      {
        var k := AnyOf(rest);
        rest := rest - {k};
        assert k !in Elements(keys);
        assert Elements(keys + [k]) == Elements(keys) + {k};
        keys := keys + [k];
      }
    }

    /** Drops the lease whose item is at i: the last item takes its place. */
    method RemoveAt(i: nat)
      requires Valid() && i < |heap|
      modifies this
      ensures Valid()
      ensures State() == Dropped(old(State()), old(heap)[i].id)
    {
      hide Agrees;
      AgreesRemove(heap, leases, i);
      ghost var shrunk := TakeLastTo(heap, i);
      RemovedInHeap(heap, i);
      leases := leases - {heap[i].id};
      heap := heap[i := heap[|heap| - 1]][..|heap| - 1];
      assert heap == shrunk;
      if i < |heap| {
        Reorder(i);
        AgreesPermuted(shrunk, heap, leases);
      }
    }

    /** The root of the heap is a lease of least deadline. */
    method GetExpiringLease() returns (item: Option<Item>)
      requires Valid()
      ensures item.None? <==> leases == map[]
      ensures item.Some? ==>
                && |heap| > 0 && item.value == heap[0]
                && item.value.id in leases
                && item.value.expireAt == leases[item.value.id].expireAt
                && forall id :: id in leases ==> item.value.expireAt <= leases[id].expireAt
    {
      if |heap| == 0 {
        forall id | id in leases ensures false { var _ := AgreesIndex(heap, leases, id); }
        return None;
      }
      AgreesItem(heap, leases, 0);
      forall id | id in leases ensures heap[0].expireAt <= leases[id].expireAt {
        var i := AgreesIndex(heap, leases, id);
        MinAtRoot(heap, i);
      }
      return Some(heap[0]);
    }

    /** Removes a lease of least deadline, if that deadline has passed. */
    method RemoveExpiredLease(now: int) returns (keys: seq<string>, id: int)
      requires Valid()
      modifies this
      ensures Valid()
      ensures State() == old(State()) ==>
                forall i :: i in old(leases) ==> old(leases)[i].expireAt > now
      ensures State() != old(State()) ==>
                && id in old(leases) && old(leases)[id].expireAt <= now
                && State() == Dropped(old(State()), id)
                && Elements(keys) == old(leases)[id].keys.Keys
    {
      var item := GetExpiringLease();
      if item.None? || item.value.expireAt > now {
        return [], 0;
      }
      AgreesItem(heap, leases, 0);
      id := heap[0].id;
      keys := HeldKeys(leases[id]);
      RemoveAt(0);
      assert id !in leases;
    }

    method Snapshot() returns (snap: LeaseSnapshot)
      requires Valid()
      requires TableOk(State())
      ensures snap.counter == leaseID && Lists(snap.entries, State())
    {
      var entries: seq<Lease> := [];
      var rest := leases.Keys;
      while rest != {}
        invariant rest <= leases.Keys
        invariant forall i :: 0 <= i < |entries| ==>
                    entries[i].id in leases && entries[i].id !in rest && entries[i] == leases[entries[i].id]
        invariant DistinctIds(entries)
        invariant forall id :: id in leases && id !in rest ==> leases[id] in entries
      {
        var id := AnyOf(rest);
        rest := rest - {id};
        entries := entries + [leases[id]];
      }
      snap := LeaseSnapshot(leaseID, entries);
    }

    /** Accepts exactly the restorable snapshots, replaces the table and rebuilds
        the heap; a refused snapshot changes nothing. */
    method Restore(snap: LeaseSnapshot) returns (ok: bool)
      requires Valid()
      modifies this
      ensures Valid()
      ensures ok <==> RestoreTable(snap).Some?
      ensures State() == if ok then RestoreTable(snap).value else old(State())
    {
      var accepted, newLeases, newHeap := Decode(snap);
      if !accepted {
        return false;
      }
      EntriesByIdKeys(snap.entries);
      leaseID := snap.counter;
      leases := newLeases;
      heap := newHeap;
      Heapify();
      return true;
    }

    /** The validation pass: builds the lease map and the still unordered heap. */
    method Decode(snap: LeaseSnapshot) returns (ok: bool, newLeases: map<int, Lease>, newHeap: seq<Item>)
      ensures ok <==> Restorable(snap)
      ensures ok ==> newLeases == EntriesById(snap.entries) && Agrees(newHeap, newLeases)
    {
      hide Agrees;
      newLeases, newHeap := map[], [];
      EmptyAgrees();
      var maxID := 0;
      for i := 0 to |snap.entries|
        invariant DistinctIds(snap.entries[..i])
        invariant newLeases == EntriesById(snap.entries[..i])
        invariant forall j :: 0 <= j < i ==>
                    1 <= snap.entries[j].id <= maxID && snap.entries[j].ttl > 0 && snap.entries[j].expireAt > 0
        invariant maxID == 0 || exists j :: 0 <= j < i && snap.entries[j].id == maxID
        invariant Agrees(newHeap, newLeases)
      {
        FreshEntry(snap.entries, i);
        var e := snap.entries[i];
        if e.id <= 0 || e.ttl <= 0 || e.expireAt <= 0 {
          return false, map[], [];
        }
        if e.id in newLeases {
          return false, map[], [];
        }
        AgreesPush(newHeap, newLeases, e.id, e);
        newLeases := newLeases[e.id := e];
        newHeap := newHeap + [Item(e.id, e.expireAt)];
        if e.id > maxID {
          maxID := e.id;
        }
      }
      assert snap.entries[..|snap.entries|] == snap.entries;
      ok := snap.counter >= maxID;
    }

    method Heapify()
      requires Agrees(heap, leases)
      modifies this`heap
      ensures MinHeap(heap) && Agrees(heap, leases)
    {
      ghost var before := heap;
      var i := |heap| / 2;
      while i > 0
        invariant 0 <= i <= |heap| / 2
        invariant multiset(heap) == multiset(before)
        invariant forall j :: 0 < j < |heap| && i <= Parent(j) ==> InOrder(heap, j)
      {
        i := i - 1;
        BubbleDown(i, i);
      }
      AgreesPermuted(before, heap, leases);
    }
  }
}
