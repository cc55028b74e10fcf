/** The server object: the store, the lease manager and the revision counter it
    updates in place, command by command, live and during recovery. */
module Server {
  import opened Commands
  import opened SortedKeys
  import opened MvccStore
  import opened LeaseTable
  import KV = KVStore
  import LM = LeaseManager
  import opened StateMachine
  import opened Histories

  class Server {
    const store: KV.KVStore
    const leaseMgr: LM.LeaseManager
    var currentRev: int
    /** The records written to the journal by this process. */
    var journal: seq<Command>
    /** A journal write has failed; no command is accepted any more. */
    var persistenceFailed: bool

    ghost function Current(): State
      reads this, store, leaseMgr
    {
      State(store.State(), leaseMgr.State(), currentRev)
    }

    ghost predicate Valid()
      reads this, store, leaseMgr
    {
      leaseMgr.Valid() && Sound(Current())
    }

    constructor ()
      ensures Valid() && Current() == INITIAL && journal == [] && !persistenceFailed
      ensures fresh(store) && fresh(leaseMgr)
    {
      store := new KV.KVStore();
      leaseMgr := new LM.LeaseManager();
      currentRev := 0;
      journal := [];
      persistenceFailed := false;
    }

    // ----- Pieces shared by the two command paths -----

    /** Deletes keys one by one, each at a revision of its own. */
    method DeleteKeys(keys: seq<string>)
      modifies this`currentRev, store
      ensures store.State() == TombstoneFrom(old(store.State()), old(currentRev), keys)
      ensures currentRev == old(currentRev) + |keys|
    {
      hide TombstoneAt;
      for i := 0 to |keys|
        invariant store.State() == TombstoneFrom(old(store.State()), old(currentRev), keys[..i])
        invariant currentRev == old(currentRev) + i
      {
        assert keys[..i + 1][..i] == keys[..i];
        currentRev := currentRev + 1;
        var _ := store.Apply(DeleteCommand(keys[i], currentRev));
      }
      assert keys[..|keys|] == keys;
    }

    /** Takes keys out of whatever leases hold them. */
    method ReleaseKeys(keys: seq<string>)
      requires leaseMgr.Valid()
      requires forall k :: AtMostOneHolder(leaseMgr.State(), k)
      modifies leaseMgr
      ensures leaseMgr.Valid()
      ensures leaseMgr.State() == DetachedAll(old(leaseMgr.State()), Elements(keys))
    {
      ghost var t := leaseMgr.State();
      DetachNothing(t);
      assert Elements([]) == {};
      for i := 0 to |keys|
        invariant leaseMgr.Valid()
        invariant leaseMgr.State() == DetachedAll(t, Elements(keys[..i]))
      {
        DetachMore(t, Elements(keys[..i]), keys[i]);
        assert Elements(keys[..i + 1]) == Elements(keys[..i]) + {keys[i]} by { assert keys[..i + 1] == keys[..i] + [keys[i]]; }
        var _ := leaseMgr.Revoke(keys[i]);
      }
      assert keys[..|keys|] == keys;
    }

    /** Revokes a lease, for an expiry only if the deadline still matches. */
    method DropLease(id: int, expected: int)
      requires leaseMgr.Valid()
      modifies this`currentRev, store, leaseMgr
      ensures leaseMgr.Valid()
      ensures Current() == if RevokeApplies(old(leaseMgr.State()), id, expected)
                           then RevokeEffect(old(Current()), id) else old(Current())
    {
      var keys;
      if expected > 0 {
        keys := leaseMgr.RevokeLeaseIfMatches(id, expected);
      } else {
        keys := leaseMgr.RevokeLease(id);
      }
      assert id !in old(leaseMgr.State()).leases ==> leaseMgr.State() == old(leaseMgr.State());
      DeleteKeys(keys);
    }

    /** Writes a live value and hands the key to the given lease. */
    method WriteLeased(cmd: Command)
      requires leaseMgr.Valid() && AtMostOneHolder(leaseMgr.State(), cmd.key)
      requires cmd.leaseID > 0
      modifies store, leaseMgr
      ensures leaseMgr.Valid()
      ensures Current() == WriteState(old(Current()), cmd.key, cmd.revision, cmd.value, cmd.leaseID)
    {
      hide DetachedAll, Attached, AtMostOneHolder, ApplyStore, Written;
      LeasedPut(store.State(), cmd);
      var _ := leaseMgr.Revoke(cmd.key);
      leaseMgr.Attach(cmd.leaseID, cmd.key, cmd.value);
      store.SetKeyLease(cmd.key, cmd.leaseID);
      var _ := store.Apply(cmd.(typ := Put));
    }

    // ----- The apply loop -----

    /** One turn of the apply loop; writeOk is the outcome of the journal write. A
        failed write stops the server from acting on this or any later command. */
    method ApplyCommitted(cmd: Command, now: int, writeOk: bool) returns (answer: Option<Answer>)
      requires Valid()
      modifies this, store, leaseMgr
      ensures Valid()
      ensures persistenceFailed <==> old(persistenceFailed) || !writeOk
      ensures answer.None? <==> persistenceFailed
      ensures persistenceFailed ==>
                && journal == old(journal)
                && Current() == if IsWrite(cmd.typ) then old(Current()).(rev := old(currentRev) + 1) else old(Current())
      ensures !persistenceFailed ==>
                && journal == old(journal) + [Journaled(old(Current()), Input(cmd, now))]
                && Current() == Live(old(Current()), Input(cmd, now))
                && answer == Some(LiveAnswer(old(Current()), cmd))
    {
      hide Effect, Sound;
      ghost var s0 := Current();
      var c := cmd;
      if IsWrite(c.typ) {
        currentRev := currentRev + 1;
        c := c.(revision := currentRev);
      }
      if SetsDeadline(c.typ) {
        var ttl := if c.ttl <= 0 then DEFAULT_TTL else c.ttl;
        if c.expireAt <= 0 {
          c := c.(expireAt := Deadline(now, ttl));
        }
      }
      assert c == Journaled(s0, Input(cmd, now));
      SoundIgnoresRevision(s0, currentRev);
      if persistenceFailed {
        return None;
      }
      if !writeOk {
        persistenceFailed := true;
        return None;
      }
      journal := journal + [c];
      EffectKeepsSound(Current(), c);
      AnswerIgnoresStamp(s0, cmd, now);
      var a := Execute(c);
      return Some(a);
    }

    /** The switch of the apply loop, on a stamped and journaled command. */
    method Execute(c: Command) returns (answer: Answer)
      requires Valid()
      modifies this`currentRev, store, leaseMgr
      ensures leaseMgr.Valid()
      ensures Current() == Effect(old(Current()), c)
      ensures answer == LiveAnswer(old(Current()), c)
    {
      hide Sound, TombstoneFrom, DetachedAll, Attached, AddVersion, AtMostOneHolder;
      SoundIsExclusive(Current(), c.key);
      match c.typ {
        case LeaseGrant =>
          var id := leaseMgr.GrantUntil(if c.ttl <= 0 then DEFAULT_TTL else c.ttl, c.expireAt);
          answer := Number(id);
        case LeaseRevoke =>
          if c.leaseID > 0 {
            DropLease(c.leaseID, c.expireAt);
          }
          answer := Words("OK");
        case LeaseKeepAlive =>
          var ok := leaseMgr.KeepAliveUntil(c.leaseID, if c.ttl <= 0 then DEFAULT_TTL else c.ttl, c.expireAt);
          answer := Words(if ok then "OK" else "ERROR");
        case LeaseAttach =>
          if c.leaseID > 0 {
            PutIsWrite(Current(), c);
            WriteLeased(c);
          }
          answer := Words("OK");
        case CAS =>
          answer := CompareAndSwap(c);
        case DeletePrefix =>
          var n := DeleteUnder(c.prefix);
          answer := Number(n);
        case GetPrefix =>
          var pairs := store.GetPrefix(c.prefix);
          answer := Pairs(pairs);
        case Get =>
          var reply := store.Apply(c);
          answer := Words(reply.text);
        case _ =>
          PutOrDelete(c);
          answer := Words("");
      }
    }

    method CompareAndSwap(c: Command) returns (answer: Answer)
      requires leaseMgr.Valid() && c.typ.CAS?
      modifies store, leaseMgr
      ensures leaseMgr.Valid()
      ensures Current() == Effect(old(Current()), c)
      ensures answer == LiveAnswer(old(Current()), c)
    {
      var leaseID := store.GetKeyLease(c.key);
      var reply := store.Apply(c);
      if reply.text == "OK" && leaseID > 0 {
        leaseMgr.Attach(leaseID, c.key, c.value);
      }
      answer := Words(reply.text);
    }

    method DeleteUnder(prefix: string) returns (n: nat)
      requires Valid()
      modifies this`currentRev, store, leaseMgr
      ensures leaseMgr.Valid()
      ensures Current() == CatchUp(PrefixState(old(Current()), prefix))
      ensures n == |DeletedKeys(old(store.State()), prefix)|
    {
      forall k ensures AtMostOneHolder(leaseMgr.State(), k) {
        SoundIsExclusive(Current(), k);
      }
      var deleted := store.DeletePrefix(prefix);
      ReleaseKeys(deleted);
      if store.currentRev > currentRev {
        currentRev := store.currentRev;
      }
      n := |deleted|;
    }

    /** The default branch: puts, deletes, and types the store does not know. */
    method PutOrDelete(c: Command)
      requires leaseMgr.Valid() && AtMostOneHolder(leaseMgr.State(), c.key)
      requires c.typ.Put? || c.typ.Delete? || c.typ.Unknown?
      modifies store, leaseMgr
      ensures leaseMgr.Valid()
      ensures Current() == Effect(old(Current()), c)
    {
      if c.typ.Put? || c.typ.Delete? {
        var _ := leaseMgr.Revoke(c.key);
      }
      var _ := store.Apply(c);
      if c.leaseID > 0 && c.typ.Put? {
        leaseMgr.Attach(c.leaseID, c.key, c.value);
        store.SetKeyLease(c.key, c.leaseID);
      }
    }

    // ----- Expiry -----

    /** The cleanup loop with every revoke committed at once. It reads the clock every
        round, and ends at a reading at which exactly the leases with a deadline in the
        future are left, and the keys of the others, and no other keys, are deleted. */
    method CleanupExpired(clock: nat -> int) returns (rounds: nat)
      requires Valid() && Inv(Current()) && !persistenceFailed
      requires forall i, j :: 0 <= i <= j ==> clock(i) <= clock(j)
      modifies this, store, leaseMgr
      ensures Valid() && Inv(Current()) && !persistenceFailed
      ensures rounds == |ExpiredIds(old(leaseMgr.State()), clock(rounds))|
      ensures leaseMgr.State().counter == old(leaseMgr.State()).counter
      ensures leaseMgr.State().leases ==
                old(leaseMgr.State()).leases - ExpiredIds(old(leaseMgr.State()), clock(rounds))
      ensures Flatten(Current()).cells ==
                old(Flatten(Current()).cells) -
                KeysIn(old(leaseMgr.State()), ExpiredIds(old(leaseMgr.State()), clock(rounds)))
    {
      hide Inv, Live, Flatten, Sound, Swept;
      ghost var s0 := Current();
      ghost var gone: set<int> := {};
      NothingSwept(s0);
      rounds := 0;
      while true
        invariant Valid() && Inv(Current()) && !persistenceFailed
        invariant gone <= ExpiredIds(s0.table, clock(rounds)) && |gone| == rounds && Swept(s0, gone, Current())
        decreases |Current().table.leases|
      {
        var now := clock(rounds);
        var item := leaseMgr.GetExpiringLease();
        if item.None? || item.value.expireAt > now {
          SweptAll(s0, gone, Current(), now);
          return;
        }
        SweepOne(s0, gone, Current(), item.value.id, now);
        ExpiredGrows(s0.table, now, clock(rounds + 1));
        gone := gone + {item.value.id};
        rounds := rounds + 1;
        var _ := ApplyCommitted(ExpiryRevoke(item.value.id, item.value.expireAt), now, true);
      }
    }

    // ----- Recovery -----

    /** Replays one journal record; false is the startup error. */
    method ApplyRecovered(cmd: Command, now: int) returns (ok: bool)
      requires Valid()
      modifies this`currentRev, store, leaseMgr
      ensures leaseMgr.Valid() && (ok ==> Valid())
      ensures ok <==> Recovered(old(Current()), cmd, now).Some?
      ensures ok ==> Current() == Recovered(old(Current()), cmd, now).value
    {
      hide RecoveredEffect, Sound;
      ghost var s0 := Current();
      if Recovered(s0, cmd, now).Some? {
        RecoveredKeepsSound(s0, cmd, now);
      }
      var c := cmd;
      if IsWrite(c.typ) {
        if c.revision == 0 {
          currentRev := currentRev + 1;
          c := c.(revision := currentRev);
        } else if c.revision > currentRev {
          currentRev := c.revision;
        }
      }
      SoundIgnoresRevision(s0, currentRev);
      ok := ReplayEffect(c, now);
    }

    method ReplayEffect(c: Command, now: int) returns (ok: bool)
      requires Valid()
      modifies this`currentRev, store, leaseMgr
      ensures leaseMgr.Valid()
      ensures ok <==> RecoveredEffect(old(Current()), c, now).Some?
      ensures ok ==> Current() == RecoveredEffect(old(Current()), c, now).value
    {
      hide Sound, TombstoneFrom, DetachedAll, Attached, AddVersion, CasMatches, LeaseOf, Deadline, AtMostOneHolder;
      hide ApplyStore, SetLease, Written;
      SoundIsExclusive(Current(), c.key);
      match c.typ {
        case LeaseGrant =>
          var ttl := if c.ttl <= 0 then DEFAULT_TTL else c.ttl;
          var _ := leaseMgr.GrantUntil(ttl, if c.expireAt <= 0 then Deadline(now, ttl) else c.expireAt);
        case LeaseRevoke =>
          DropLease(c.leaseID, c.expireAt);
        case LeaseKeepAlive =>
          var ttl := if c.ttl <= 0 then DEFAULT_TTL else c.ttl;
          var _ := leaseMgr.KeepAliveUntil(c.leaseID, ttl, if c.expireAt <= 0 then Deadline(now, ttl) else c.expireAt);
        case LeaseAttach =>
          if c.leaseID > 0 {
            PutIsWrite(Current(), c);
            WriteLeased(c);
          }
        case DeletePrefix =>
          var _ := DeleteUnder(c.prefix);
        case GetPrefix =>
        case CAS =>
          var _ := CompareAndSwap(c);
        case Get =>
          var _ := store.Apply(c);
        case Unknown(_) =>
          return false;
        case _ =>
          PutOrDelete(c);
      }
      if store.currentRev > currentRev {
        currentRev := store.currentRev;
      }
      ok := true;
    }

    /** Replays a list of records, stopping at the first that fails. */
    method ReplayEntries(records: seq<Command>, now: int) returns (ok: bool)
      requires Valid()
      modifies this`currentRev, store, leaseMgr
      ensures leaseMgr.Valid() && (ok ==> Valid())
      ensures ok <==> Replay(old(Current()), records, now).Some?
      ensures ok ==> Current() == Replay(old(Current()), records, now).value
    {
      hide Recovered;
      ghost var s0 := Current();
      for i := 0 to |records|
        invariant Valid()
        invariant Replay(s0, records[..i], now) == Some(Current())
      {
        assert records[..i + 1][..i] == records[..i];
        var step := ApplyRecovered(records[i], now);
        if !step {
          ReplayFailsEarly(s0, records, i + 1, now);
          return false;
        }
      }
      assert records[..|records|] == records;
      ok := true;
    }

    // ----- Snapshots -----

    method TakeSnapshot() returns (snap: ServerSnapshot)
      requires Valid()
      ensures IsSnapshotOf(snap, Current())
    {
      var storeSnap := store.Snapshot();
      var leaseSnap := leaseMgr.Snapshot();
      snap := ServerSnapshot(storeSnap, leaseSnap, if store.currentRev > currentRev then store.currentRev else currentRev);
    }

    /** Loads a snapshot at startup, before any record is replayed. */
    method LoadSnapshot(snap: ServerSnapshot) returns (ok: bool)
      requires Valid()
      modifies this`currentRev, store, leaseMgr
      ensures leaseMgr.Valid()
      ensures ok <==> RestoreState(snap).Some?
      ensures ok ==> Current() == RestoreState(snap).value
    {
      ok := store.Restore(snap.store);
      if !ok {
        return;
      }
      ok := leaseMgr.Restore(snap.leases);
      if !ok {
        return;
      }
      currentRev := snap.rev;
      if store.currentRev > currentRev {
        currentRev := store.currentRev;
      }
    }
  }

  ghost function ExpiredIds(t: Table, now: int): set<int> {
    set id | id in t.leases && t.leases[id].expireAt <= now
  }

  lemma ExpiredGrows(t: Table, now: int, later: int)
    requires now <= later
    ensures ExpiredIds(t, now) <= ExpiredIds(t, later)
  {
  }

  ghost function KeysIn(t: Table, ids: set<int>): set<string> {
    set id, k | id in ids && id in t.leases && k in t.leases[id].keys :: k
  }

  /** The state s is s0 without the leases in gone and without their keys. */
  ghost predicate Swept(s0: State, gone: set<int>, s: State) {
    && s.table == Table(s0.table.leases - gone, s0.table.counter)
    && Flatten(s).cells == Flatten(s0).cells - KeysIn(s0.table, gone)
  }

  lemma NothingSwept(s: State)
    ensures Swept(s, {}, s)
  {
    hide Flatten;
    assert s.table.leases - {} == s.table.leases;
    assert KeysIn(s.table, {}) == {};
  }

  lemma SweepOne(s0: State, gone: set<int>, s: State, id: int, now: int)
    requires Swept(s0, gone, s) && Inv(s)
    requires id in s.table.leases && s.table.leases[id].expireAt <= now
    ensures var s' := Live(s, Input(ExpiryRevoke(id, s.table.leases[id].expireAt), now));
            && Swept(s0, gone + {id}, s') && Inv(s')
            && |s'.table.leases| < |s.table.leases|
    ensures id in ExpiredIds(s0.table, now) && id !in gone
  {
    hide Inv, Live, Flatten;
    var s' := Live(s, Input(ExpiryRevoke(id, s.table.leases[id].expireAt), now));
    ExpiryStep(s, id, now);
    LiveKeepsInv(s, Input(ExpiryRevoke(id, s.table.leases[id].expireAt), now));
    assert KeysIn(s0.table, gone + {id}) == KeysIn(s0.table, gone) + s0.table.leases[id].keys.Keys;
    assert s0.table.leases - gone - {id} == s0.table.leases - (gone + {id});
    assert s'.table.leases.Keys == s.table.leases.Keys - {id};
  }

  lemma SweptAll(s0: State, gone: set<int>, s: State, now: int)
    requires Swept(s0, gone, s) && gone <= ExpiredIds(s0.table, now)
    requires forall id :: id in s.table.leases ==> s.table.leases[id].expireAt > now
    ensures gone == ExpiredIds(s0.table, now)
    ensures s.table == Table(s0.table.leases - ExpiredIds(s0.table, now), s0.table.counter)
    ensures Flatten(s).cells == Flatten(s0).cells - KeysIn(s0.table, ExpiredIds(s0.table, now))
  {
    hide Flatten;
    forall id | id in s0.table.leases && id !in gone ensures s0.table.leases[id].expireAt > now {
      assert id in s.table.leases;
    }
    assert ExpiredIds(s0.table, now) <= gone;
  }

  /** An expiry revoke that names the current deadline removes the lease and its keys. */
  lemma ExpiryStep(s: State, id: int, now: int)
    requires Inv(s) && id in s.table.leases
    ensures var s' := Live(s, Input(ExpiryRevoke(id, s.table.leases[id].expireAt), now));
            && s'.table == Dropped(s.table, id)
            && Flatten(s').cells == Flatten(s).cells - s.table.leases[id].keys.Keys
  {
    hide Inv, Live, Flatten, TombstoneFrom;
    var i := Input(ExpiryRevoke(id, s.table.leases[id].expireAt), now);
    InvBounds(s);
    LiveRevoke(s, i);
    FlatSimulates(s, i);
    FlattenTable(s);
  }

  datatype ServerSnapshot = ServerSnapshot(store: KV.StoreSnapshot, leases: LeaseSnapshot, rev: int)

  /** A snapshot of a state; the leases may be listed in any order. */
  ghost predicate IsSnapshotOf(snap: ServerSnapshot, s: State) {
    && snap.store == KV.SnapshotStore(s.store)
    && snap.leases.counter == s.table.counter && Lists(snap.leases.entries, s.table)
    && snap.rev == CatchUp(s).rev
  }

  ghost function RestoreState(snap: ServerSnapshot): Option<State> {
    var store, table := KV.RestoreStore(snap.store), RestoreTable(snap.leases);
    if store.None? || table.None? then None
    else Some(CatchUp(State(store.value, table.value, snap.rev)))
  }

  /** Every snapshot of a reachable state is accepted and restores exactly it. */
  lemma SnapshotRoundTrip(s: State, snap: ServerSnapshot)
    requires Inv(s) && Positive(s.table)
    requires IsSnapshotOf(snap, s)
    ensures RestoreState(snap) == Some(s)
  {
    KV.StoreRoundTrip(s.store);
    TableRoundTrip(s.table, snap.leases.entries);
    assert snap.leases == LeaseSnapshot(s.table.counter, snap.leases.entries);
  }

  lemma {:induction false} ReplayFailsEarly(s: State, records: seq<Command>, n: nat, now: int)
    requires n <= |records| && Replay(s, records[..n], now).None?
    ensures Replay(s, records, now).None?
  {
    hide Recovered;
    if n == |records| {
      assert records[..n] == records;
    } else {
      assert records[..|records| - 1][..n] == records[..n];
      ReplayFailsEarly(s, records[..|records| - 1], n, now);
    }
  }

  lemma SoundIgnoresRevision(s: State, rev: int)
    requires Sound(s)
    ensures Sound(s.(rev := rev))
  {
  }

  lemma SoundIsExclusive(s: State, k: string)
    requires Sound(s)
    ensures AtMostOneHolder(s.table, k)
  {
    CoherentIsExclusive(s.store, s.table, k);
  }

  /** Naming the lease before the put or with it is the same. */
  lemma LeasedPut(st: Store, cmd: Command)
    requires cmd.leaseID > 0
    ensures ApplyStore(SetLease(st, cmd.key, cmd.leaseID), cmd.(typ := Put)) ==
              Written(st, cmd.key, cmd.revision, cmd.value, cmd.leaseID)
  {
  }

  lemma AnswerIgnoresStamp(s: State, cmd: Command, now: int)
    ensures var s' := if IsWrite(cmd.typ) then s.(rev := s.rev + 1) else s;
            LiveAnswer(s', Journaled(s, Input(cmd, now))) == LiveAnswer(s, cmd)
  {
  }

  lemma DetachNothing(t: Table)
    ensures DetachedAll(t, {}) == t
  {
    forall id | id in t.leases ensures t.leases[id].keys - {} == t.leases[id].keys { }
    assert DetachedAll(t, {}).leases == t.leases;
  }

  lemma DetachMore(t: Table, ks: set<string>, k: string)
    requires AtMostOneHolder(t, k)
    ensures AtMostOneHolder(DetachedAll(t, ks), k)
    ensures Detached(DetachedAll(t, ks), k) == DetachedAll(t, ks + {k})
  {
    var a, b := Detached(DetachedAll(t, ks), k), DetachedAll(t, ks + {k});
    forall id | id in t.leases ensures a.leases[id] == b.leases[id] {
      assert t.leases[id].keys - ks - {k} == t.leases[id].keys - (ks + {k});
    }
    assert a.leases == b.leases;
    forall id, id' | Holds(DetachedAll(t, ks), id, k) && Holds(DetachedAll(t, ks), id', k) ensures id == id' {
      assert Holds(t, id, k) && Holds(t, id', k);
    }
  }
}
