/** The store object of the server: its fields are updated in place, its methods
    are proved against the store functions, and walks over its maps pick keys in
    an arbitrary order. */
module KVStore {
  import opened Commands
  import opened SortedKeys
  import opened MvccStore

  /** A decoded store snapshot; an absent field is a JSON null. */
  datatype StoreSnapshot = StoreSnapshot(
    data: Option<map<string, seq<Version>>>,
    key2Lease: Option<map<string, int>>,
    rev: int)

  ghost predicate VersionsInRange(data: map<string, seq<Version>>, rev: int) {
    forall k, i :: k in data && 0 <= i < |data[k]| ==> 1 <= data[k][i].revision <= rev
  }

  ghost function RestoreStore(snap: StoreSnapshot): Option<Store> {
    if snap.data.Some? && snap.key2Lease.Some? && VersionsInRange(snap.data.value, snap.rev)
    then Some(Store(snap.data.value, snap.key2Lease.value, snap.rev))
    else None
  }

  function SnapshotStore(s: Store): StoreSnapshot {
    StoreSnapshot(Some(s.data), Some(s.key2Lease), s.rev)
  }

  /** Restoring accepts every snapshot of a well-formed store and gives it back. */
  lemma StoreRoundTrip(s: Store)
    requires StoreOk(s)
    ensures RestoreStore(SnapshotStore(s)) == Some(s)
  {
    forall k, i | k in s.data && 0 <= i < |s.data[k]|
      ensures 1 <= s.data[k][i].revision <= s.rev
    {
      assert HistoryOk(s.data[k], s.rev);
    }
  }

  /** Restoring accepts exactly the snapshots that some store with versions inside its
      revision writes, and gives that store. */
  lemma RestoresWhatIsWritten(snap: StoreSnapshot)
    ensures RestoreStore(snap).Some? <==> exists s :: snap == SnapshotStore(s) && VersionsInRange(s.data, s.rev)
    ensures RestoreStore(snap).Some? ==> SnapshotStore(RestoreStore(snap).value) == snap
  {
    if RestoreStore(snap).Some? {
      var s := RestoreStore(snap).value;
      assert snap == SnapshotStore(s) && VersionsInRange(s.data, s.rev);
    }
  }

  class KVStore {
    var data: map<string, seq<Version>>
    var key2Lease: map<string, int>
    var currentRev: int

    ghost function State(): Store
      reads this
    {
      Store(data, key2Lease, currentRev)
    }

    constructor ()
      ensures State() == EMPTY_STORE
    {
      data := map[];
      key2Lease := map[];
      currentRev := 0;
    }

    method SetKeyLease(key: string, leaseID: int)
      modifies this
      ensures State() == SetLease(old(State()), key, leaseID)
    {
      key2Lease := key2Lease[key := leaseID];
    }

    method GetKeyLease(key: string) returns (leaseID: int)
      ensures leaseID == LeaseOf(State(), key)
    {
      leaseID := if key in key2Lease then key2Lease[key] else 0;
    }

    /** Advances the revision counter the way every write does. */
    method TakeRevision(requested: int) returns (rev: int)
      modifies this`currentRev
      ensures rev == AssignedRevision(old(State()), requested)
      ensures currentRev == if rev > old(currentRev) then rev else old(currentRev)
    {
      rev := requested;
      if rev == 0 {
        currentRev := currentRev + 1;
        rev := currentRev;
      } else if rev > currentRev {
        currentRev := rev;
      }
    }

    method Append(key: string, version: Version)
      modifies this`data
      ensures data == old(data)[key := History(old(State()), key) + [version]]
    {
      var entries := if key in data then data[key] else [];
      data := data[key := entries + [version]];
    }

    method Apply(cmd: Command) returns (reply: Reply)
      modifies this
      ensures State() == ApplyStore(old(State()), cmd)
      ensures reply == ApplyReply(old(State()), cmd)
    {
      match cmd.typ {
        case Put =>
          var rev := TakeRevision(cmd.revision);
          Append(cmd.key, Version(rev, cmd.value, false));
          if cmd.leaseID > 0 {
            key2Lease := key2Lease[cmd.key := cmd.leaseID];
          } else {
            key2Lease := key2Lease - {cmd.key};
          }
          reply := Text("");
        case Get =>
          var value, _ := GetAtRevision(cmd.key, cmd.revision);
          reply := Text(value);
        case Delete =>
          var rev := TakeRevision(cmd.revision);
          Append(cmd.key, Version(rev, "", true));
          key2Lease := key2Lease - {cmd.key};
          reply := Text("");
        case CAS =>
          var entries := if cmd.key in data then data[cmd.key] else [];
          if |entries| > 0 && !entries[|entries| - 1].tombstone && entries[|entries| - 1].revision == cmd.expectedRev {
            var rev := TakeRevision(cmd.revision);
            Append(cmd.key, Version(rev, cmd.value, false));
            reply := Text("OK");
          } else {
            reply := Text("CAS_FAILED");
          }
        case LeaseAttach =>
          if cmd.leaseID > 0 {
            key2Lease := key2Lease[cmd.key := cmd.leaseID];
            var rev := TakeRevision(cmd.revision);
            Append(cmd.key, Version(rev, cmd.value, false));
          }
          reply := Text("");
        case _ =>
          reply := UnknownType;
      }
    }

    /** The newest version not above rev, found by a scan from the end. */
    method GetAtRevision(key: string, rev: int) returns (value: string, revision: int)
      ensures (value, revision) == ReadAt(History(State(), key), rev)
    {
      if key !in data {
        return "", 0;
      }
      var entries := data[key];
      var i := |entries|;
      assert entries[..i] == entries;
      while i > 0
        invariant 0 <= i <= |entries|
        invariant ReadAt(entries, rev) == ReadAt(entries[..i], rev)
      {
        i := i - 1;
        assert entries[..i + 1][..i] == entries[..i];
        if rev == 0 || entries[i].revision <= rev {
          if entries[i].tombstone {
            return "", entries[i].revision;
          }
          return entries[i].value, entries[i].revision;
        }
      }
      return "", 0;
    }

    method LiveKeys() returns (keys: seq<string>)
      ensures Distinct(keys) && Elements(keys) == View(State()).Keys
    {
      keys := [];
      var rest := data.Keys;
      while rest != {}
        invariant rest <= data.Keys
        invariant Distinct(keys)
        invariant Elements(keys) == set k | k in data && k !in rest && IsLive(State(), k)
      {
        var k := AnyOf(rest);
        rest := rest - {k};
        if |data[k]| > 0 && !data[k][|data[k]| - 1].tombstone {
          assert k !in Elements(keys);
          assert Elements(keys + [k]) == Elements(keys) + {k};
          keys := keys + [k];
        }
      }
    }

    method Size() returns (count: nat)
      ensures count == |View(State())|
    {
      count := 0;
      var rest := data.Keys;
      ghost var seen: set<string> := {};
      while rest != {}
        invariant rest <= data.Keys
        invariant seen == set k | k in data && k !in rest && IsLive(State(), k)
        invariant count == |seen|
      {
        var k := AnyOf(rest);
        rest := rest - {k};
        if |data[k]| > 0 && !data[k][|data[k]| - 1].tombstone {
          seen := seen + {k};
          count := count + 1;
        }
      }
      assert seen == View(State()).Keys;
    }

    method GetPrefix(prefix: string) returns (result: map<string, string>)
      ensures result == map k | k in View(State()) && HasPrefix(k, prefix) :: View(State())[k]
    {
      result := map[];
      var rest := data.Keys;
      while rest != {}
        invariant rest <= data.Keys
        invariant result == map k | k in data && k !in rest && IsLive(State(), k) && HasPrefix(k, prefix) :: Latest(State(), k).value
      {
        var k := AnyOf(rest);
        rest := rest - {k};
        if HasPrefix(k, prefix) {
          if |data[k]| > 0 && !data[k][|data[k]| - 1].tombstone {
            result := result[k := data[k][|data[k]| - 1].value];
          }
        }
      }
    }

    /** The keys under a prefix, in whatever order the map walk meets them. */
    method KeysUnder(prefix: string) returns (keys: seq<string>)
      ensures Distinct(keys) && Elements(keys) == Matching(State(), prefix)
    {
      keys := [];
      var rest := data.Keys;
      while rest != {}
        invariant rest <= data.Keys
        invariant Distinct(keys)
        invariant Elements(keys) == set k | k in data && k !in rest && HasPrefix(k, prefix)
      {
        var k := AnyOf(rest);
        rest := rest - {k};
        if HasPrefix(k, prefix) {
          assert k !in Elements(keys);
          assert Elements(keys + [k]) == Elements(keys) + {k};
          keys := keys + [k];
        }
      }
    }

    method AppendTombstone(key: string)
      modifies this
      ensures State() == TombstoneAt(old(State()), key, old(currentRev) + 1)
      ensures currentRev == old(currentRev) + 1
    {
      currentRev := currentRev + 1;
      Append(key, Version(currentRev, "", true));
      key2Lease := key2Lease - {key};
    }

    method DeletePrefix(prefix: string) returns (deleted: seq<string>)
      modifies this
      ensures deleted == DeletedKeys(old(State()), prefix)
      ensures State() == DeletePrefixStore(old(State()), prefix)
    {
      hide TombstoneAt;
      var keys := KeysUnder(prefix);
      deleted := Sort(keys);
      SortIsCanonical(keys);
      for i := 0 to |deleted|
        invariant State() == TombstoneFrom(old(State()), old(currentRev), deleted[..i])
        invariant currentRev == old(currentRev) + i
      {
        assert deleted[..i + 1][..i] == deleted[..i];
        AppendTombstone(deleted[i]);
      }
      assert deleted[..|deleted|] == deleted;
    }

    method Snapshot() returns (snap: StoreSnapshot)
      ensures snap == SnapshotStore(State())
    {
      snap := StoreSnapshot(Some(data), Some(key2Lease), currentRev);
    }

    method Restore(snap: StoreSnapshot) returns (ok: bool)
      modifies this
      ensures ok <==> RestoreStore(snap).Some?
      ensures State() == if ok then RestoreStore(snap).value else old(State())
    {
      if snap.data.None? || snap.key2Lease.None? {
        return false;
      }
      var rest := snap.data.value.Keys;
      while rest != {}
        invariant rest <= snap.data.value.Keys
        invariant State() == old(State())
        invariant forall k, i :: k in snap.data.value && k !in rest && 0 <= i < |snap.data.value[k]| ==>
                    1 <= snap.data.value[k][i].revision <= snap.rev
      {
        var k := AnyOf(rest);
        rest := rest - {k};
        for j := 0 to |snap.data.value[k]|
          invariant State() == old(State())
          invariant forall i :: 0 <= i < j ==> 1 <= snap.data.value[k][i].revision <= snap.rev
        {
          if snap.data.value[k][j].revision <= 0 || snap.data.value[k][j].revision > snap.rev {
            return false;
          }
        }
      }
      data := snap.data.value;
      key2Lease := snap.key2Lease.value;
      currentRev := snap.rev;
      ok := true;
    }
  }
}
