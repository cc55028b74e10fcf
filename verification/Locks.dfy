/** Distributed locks over leases: a lock is an entry that names a lease, and it is
    held as long as that lease is in the lease table. */
module Locks {
  import opened Commands
  import opened MvccStore
  import opened LeaseTable
  import LM = LeaseManager
  import S = Server
  import opened StateMachine

  datatype LockInfo = LockInfo(leaseID: int, ownerID: string)

  datatype Handle = Handle(key: string, leaseID: int, ownerID: string)

  datatype LockError = NotHeld | AlreadyHeld | LeaseExpired

  /** The lock entries and the lease table they point into. */
  datatype LockState = LockState(locks: map<string, LockInfo>, table: Table)

  predicate Guarded(s: LockState, key: string) {
    key in s.locks && s.locks[key].leaseID > 0 && s.locks[key].leaseID in s.table.leases
  }

  function Acquired(s: LockState, key: string, ttl: int, ownerID: string, now: int): LockState {
    if Guarded(s, key) then s
    else
      var table := Granted(s.table, EffectiveTtl(ttl), Deadline(now, EffectiveTtl(ttl)));
      LockState(s.locks[key := LockInfo(table.counter, ownerID)], table)
  }

  predicate Owns(s: LockState, key: string, leaseID: int, ownerID: string) {
    key in s.locks && s.locks[key] == LockInfo(leaseID, ownerID)
  }

  /** A release drops the lease; the entry goes too only if the lease had keys. */
  ghost function Unlocked(s: LockState, key: string, leaseID: int, ownerID: string): LockState {
    if !Owns(s, key, leaseID, ownerID) then s
    else if KeysOf(s.table, leaseID) == [] then s.(table := Dropped(s.table, leaseID))
    else LockState(s.locks - {key}, Dropped(s.table, leaseID))
  }

  function Renew(s: LockState, key: string, leaseID: int, ownerID: string, ttl: int, now: int): LockState {
    if !Owns(s, key, leaseID, ownerID) then s
    else s.(table := Renewed(s.table, leaseID, EffectiveTtl(ttl), Deadline(now, EffectiveTtl(ttl))))
  }

  /** A status query forgets an entry whose lease is gone. */
  function Queried(s: LockState, key: string): LockState {
    if key in s.locks && s.locks[key].leaseID !in s.table.leases then s.(locks := s.locks - {key}) else s
  }

  /** The entries of an expired lease are forgotten for the keys it is said to hold. */
  function Forgotten(s: LockState, leaseID: int, keys: seq<string>): LockState {
    s.(locks := map key | key in s.locks && !(key in keys && s.locks[key].leaseID == leaseID) :: s.locks[key])
  }

  class LockManager {
    const leaseMgr: LM.LeaseManager
    var locks: map<string, LockInfo>

    ghost function State(): LockState
      reads this, leaseMgr
    {
      LockState(locks, leaseMgr.State())
    }

    constructor (leaseMgr: LM.LeaseManager)
      ensures this.leaseMgr == leaseMgr && locks == map[]
    {
      this.leaseMgr := leaseMgr;
      locks := map[];
    }

    method Acquire(key: string, ttl: int, ownerID: string, now: int) returns (handle: Option<Handle>)
      requires leaseMgr.Valid()
      modifies this, leaseMgr
      ensures leaseMgr.Valid()
      ensures State() == Acquired(old(State()), key, ttl, ownerID, now)
      ensures handle == if Guarded(old(State()), key) then None else Some(Handle(key, State().table.counter, ownerID))
    {
      if key in locks {
        var info := locks[key];
        if info.leaseID > 0 && info.leaseID in leaseMgr.leases {
          return None;
        }
      }
      var effective := if ttl <= 0 then DEFAULT_TTL else ttl;
      var leaseID := leaseMgr.GrantUntil(effective, Deadline(now, effective));
      locks := locks[key := LockInfo(leaseID, ownerID)];
      return Some(Handle(key, leaseID, ownerID));
    }

    /** Releasing a lock one owns reports success exactly when keys were attached to its
        lease; a plain lock lease has none, and the release reports it as expired. */
    method Release(key: string, leaseID: int, ownerID: string) returns (error: Option<LockError>)
      requires leaseMgr.Valid()
      modifies this, leaseMgr
      ensures leaseMgr.Valid()
      ensures State() == Unlocked(old(State()), key, leaseID, ownerID)
      ensures error == if !Owns(old(State()), key, leaseID, ownerID) then Some(NotHeld)
                       else if KeysOf(old(State()).table, leaseID) == [] then Some(LeaseExpired)
                       else None
    {
      if key !in locks {
        return Some(NotHeld);
      }
      if locks[key].leaseID != leaseID || locks[key].ownerID != ownerID {
        return Some(NotHeld);
      }
      var keys := leaseMgr.RevokeLease(leaseID);
      if |keys| == 0 && leaseID !in leaseMgr.leases {
        return Some(LeaseExpired);
      }
      locks := locks - {key};
      return None;
    }

    method KeepAlive(key: string, leaseID: int, ownerID: string, ttl: int, now: int) returns (error: Option<LockError>)
      requires leaseMgr.Valid()
      modifies leaseMgr
      ensures leaseMgr.Valid()
      ensures State() == Renew(old(State()), key, leaseID, ownerID, ttl, now)
      ensures error == if !Owns(old(State()), key, leaseID, ownerID) then Some(NotHeld)
                       else if leaseID !in old(State()).table.leases then Some(LeaseExpired)
                       else None
    {
      if key !in locks {
        return Some(NotHeld);
      }
      if locks[key].leaseID != leaseID || locks[key].ownerID != ownerID {
        return Some(NotHeld);
      }
      var effective := if ttl <= 0 then DEFAULT_TTL else ttl;
      var ok := leaseMgr.KeepAliveUntil(leaseID, effective, Deadline(now, effective));
      if !ok {
        return Some(LeaseExpired);
      }
      return None;
    }

    method GetLockStatus(key: string) returns (held: bool, leaseID: int)
      modifies this`locks
      ensures State() == Queried(old(State()), key)
      ensures held <==> key in old(locks) && old(locks)[key].leaseID in leaseMgr.leases
      ensures held ==> leaseID == old(locks)[key].leaseID
    {
      if key !in locks {
        return false, 0;
      }
      var info := locks[key];
      if info.leaseID !in leaseMgr.leases {
        locks := locks - {key};
        return false, 0;
      }
      return true, info.leaseID;
    }

    method OnLeaseExpired(leaseID: int, keys: seq<string>)
      modifies this`locks
      ensures State() == Forgotten(old(State()), leaseID, keys)
    {
      for i := 0 to |keys|
        invariant locks == Forgotten(old(State()), leaseID, keys[..i]).locks
      {
        if keys[i] in locks && locks[keys[i]].leaseID == leaseID {
          locks := locks - {keys[i]};
        }
        assert keys[..i + 1] == keys[..i] + [keys[i]];
      }
      assert keys[..|keys|] == keys;
    }
  }

  // ----- Runs -----

  /** The locks, and every handle ever handed out. */
  datatype World = World(s: LockState, issued: set<Handle>)

  datatype Event =
    | Acquire(key: string, ttl: int, ownerID: string, now: int)
    | Release(key: string, leaseID: int, ownerID: string)
    | Renewal(leaseID: int, ttl: int, now: int)
    | Status(key: string)
    | LeasesMove(table: Table)

  /** What the rest of the server may do to the leases: drop or change live ones, and
      grant new ones under ids the counter has not reached yet. */
  ghost predicate Evolves(t: Table, t': Table) {
    && t.counter <= t'.counter
    && forall id :: id in t'.leases ==> id in t.leases || t.counter < id <= t'.counter
  }

  /** A keep-alive checks the owner in one locked region and renews the lease in
      another, so a renewal may come at any time after its check. */
  ghost function Step(w: World, e: Event): World {
    match e
    case Acquire(key, ttl, ownerID, now) =>
      var s := Acquired(w.s, key, ttl, ownerID, now);
      World(s, w.issued + if Guarded(w.s, key) then {} else {Handle(key, s.table.counter, ownerID)})
    case Release(key, leaseID, ownerID) => w.(s := Unlocked(w.s, key, leaseID, ownerID))
    case Renewal(leaseID, ttl, now) =>
      var table := Renewed(w.s.table, leaseID, EffectiveTtl(ttl), Deadline(now, EffectiveTtl(ttl)));
      w.(s := w.s.(table := table))
    case Status(key) => w.(s := Queried(w.s, key))
    case LeasesMove(table) => if Evolves(w.s.table, table) then w.(s := w.s.(table := table)) else w
  }

  ghost function Run(w: World, events: seq<Event>): World {
    if events == [] then w else Step(Run(w, events[..|events| - 1]), events[|events| - 1])
  }

  /** Every command of the replicated log moves the leases in this way. */
  lemma CommandsEvolveLeases(s: State, i: Input)
    ensures Evolves(s.table, Live(s, i).table)
  {
    hide ApplyStore, TombstoneFrom, DeletePrefixStore, Matching, CasMatches, LeaseOf, KeysOf;
  }

  // ----- Mutual exclusion -----

  predicate Backed(w: World, h: Handle) {
    h.leaseID in w.s.table.leases
  }

  ghost predicate LocksOk(w: World) {
    && w.s.table.counter >= 0
    && (forall id :: id in w.s.table.leases ==> id <= w.s.table.counter)
    && (forall h :: h in w.issued ==> 1 <= h.leaseID <= w.s.table.counter)
    && (forall h, h' :: h in w.issued && h' in w.issued && h.leaseID == h'.leaseID ==> h == h')
    && (forall h :: h in w.issued && Backed(w, h) ==> Owns(w.s, h.key, h.leaseID, h.ownerID))
    && (forall key :: key in w.s.locks ==> Handle(key, w.s.locks[key].leaseID, w.s.locks[key].ownerID) in w.issued)
  }

  lemma AcquireOk(w: World, key: string, ttl: int, ownerID: string, now: int)
    requires LocksOk(w)
    ensures LocksOk(Step(w, Acquire(key, ttl, ownerID, now)))
  {
    hide Deadline, EffectiveTtl, WrapInt64;
    var w' := Step(w, Acquire(key, ttl, ownerID, now));
    if !Guarded(w.s, key) {
      var latest := Handle(key, w.s.table.counter + 1, ownerID);
      forall h | h in w'.issued && Backed(w', h) ensures Owns(w'.s, h.key, h.leaseID, h.ownerID) {
        if h != latest { assert h in w.issued && Backed(w, h); }
      }
      forall k | k in w'.s.locks ensures Handle(k, w'.s.locks[k].leaseID, w'.s.locks[k].ownerID) in w'.issued { }
    }
  }

  lemma ReleaseOk(w: World, key: string, leaseID: int, ownerID: string)
    requires LocksOk(w)
    ensures LocksOk(Step(w, Release(key, leaseID, ownerID)))
  {
    hide KeysOf;
    var w' := Step(w, Release(key, leaseID, ownerID));
    forall h | h in w'.issued && Backed(w', h) ensures Owns(w'.s, h.key, h.leaseID, h.ownerID) {
      assert Backed(w, h);
    }
  }

  lemma StepOk(w: World, e: Event)
    requires LocksOk(w)
    ensures LocksOk(Step(w, e))
  {
    hide Deadline, EffectiveTtl, WrapInt64, KeysOf, Unlocked, Acquired;
    match e
    case Acquire(key, ttl, ownerID, now) => AcquireOk(w, key, ttl, ownerID, now);
    case Release(key, leaseID, ownerID) => ReleaseOk(w, key, leaseID, ownerID);
    case Renewal(leaseID, ttl, now) =>
    case Status(key) =>
      var w' := Step(w, e);
      forall h | h in w'.issued && Backed(w', h) ensures Owns(w'.s, h.key, h.leaseID, h.ownerID) {
        assert Backed(w, h);
      }
    case LeasesMove(table) =>
      var w' := Step(w, e);
      forall h | h in w'.issued && Backed(w', h) ensures Owns(w'.s, h.key, h.leaseID, h.ownerID) {
        assert Backed(w, h);
      }
  }

  lemma {:induction false} RunOk(w: World, events: seq<Event>)
    requires LocksOk(w)
    ensures LocksOk(Run(w, events))
  {
    hide LocksOk, Step;
    if events != [] {
      RunOk(w, events[..|events| - 1]);
      StepOk(Run(w, events[..|events| - 1]), events[|events| - 1]);
    }
  }

  /** Locks are handed out over an existing lease table, none yet. */
  ghost predicate Opened(w: World) {
    w.s.locks == map[] && w.issued == {} && TableOk(w.s.table)
  }

  /** In every run, with any command traffic in between, no two handles for one key
      are both backed by live leases. */
  lemma MutualExclusion(w: World, events: seq<Event>, h: Handle, h': Handle)
    requires Opened(w)
    requires var v := Run(w, events);
             h in v.issued && h' in v.issued && h.key == h'.key && Backed(v, h) && Backed(v, h')
    ensures h == h'
  {
    hide Run;
    assert LocksOk(w);
    RunOk(w, events);
  }

  /** An acquire succeeds exactly when no handle for the key is still backed. */
  lemma AcquireSucceedsIff(w: World, events: seq<Event>, key: string)
    requires Opened(w)
    ensures var v := Run(w, events);
            !Guarded(v.s, key) <==> forall h :: h in v.issued && h.key == key ==> !Backed(v, h)
  {
    hide Run;
    assert LocksOk(w);
    RunOk(w, events);
    var v := Run(w, events);
    if Guarded(v.s, key) {
      var info := v.s.locks[key];
      var h := Handle(key, info.leaseID, info.ownerID);
      assert h in v.issued && Backed(v, h);
    }
  }

  // ----- What each operation achieves -----

  /** The lease time in nanoseconds; no time-to-live means ten seconds. */
  function Nanoseconds(ttl: int): int {
    1_000_000_000 * if ttl > 0 then ttl else 10
  }

  predicate Fits(deadline: int) {
    -TWO_TO_THE_63 <= deadline < TWO_TO_THE_63
  }

  /** All leases but the given one are the same. */
  ghost predicate OthersSame(t: Table, t': Table, id: int) {
    forall j :: j != id ==> (j in t.leases <==> j in t'.leases) && (j in t.leases ==> t'.leases[j] == t.leases[j])
  }

  /** An owner's keep-alive gives its live lease the asked time from now on, and leaves
      its keys, all other leases and all locks alone. */
  lemma RenewExtends(s: LockState, key: string, leaseID: int, ownerID: string, ttl: int, now: int)
    requires Owns(s, key, leaseID, ownerID) && leaseID in s.table.leases
    ensures var s' := Renew(s, key, leaseID, ownerID, ttl, now);
            && s'.locks == s.locks && s'.table.counter == s.table.counter
            && leaseID in s'.table.leases && OthersSame(s.table, s'.table, leaseID)
            && var lease, deadline := s'.table.leases[leaseID], now + Nanoseconds(ttl);
               && lease.ttl * 1_000_000_000 == Nanoseconds(ttl)
               && (Fits(deadline) ==> lease.expireAt == deadline)
               && lease.keys == s.table.leases[leaseID].keys
  {
  }

  /** Anyone else's keep-alive, and one of a lease that is gone, changes nothing. */
  lemma RenewNeedsOwner(s: LockState, key: string, leaseID: int, ownerID: string, ttl: int, now: int)
    requires !Owns(s, key, leaseID, ownerID) || leaseID !in s.table.leases
    ensures Renew(s, key, leaseID, ownerID, ttl, now) == s
  {
  }

  /** What the keep-alive of an owner does is the renewal step of a run. */
  lemma RenewIsRenewal(w: World, key: string, leaseID: int, ownerID: string, ttl: int, now: int)
    requires Owns(w.s, key, leaseID, ownerID)
    ensures Step(w, Renewal(leaseID, ttl, now)) == w.(s := Renew(w.s, key, leaseID, ownerID, ttl, now))
  {
  }

  /** The state after a cleanup at the given clock. */
  ghost function CleanedUp(s: LockState, clock: int): LockState {
    s.(table := s.table.(leases := s.table.leases - S.ExpiredIds(s.table, clock)))
  }

  /** A cleanup spares the kept-alive lock exactly before the new deadline. */
  lemma RenewedOutlivesIff(s: LockState, key: string, leaseID: int, ownerID: string, ttl: int, now: int, clock: int)
    requires Owns(s, key, leaseID, ownerID) && leaseID in s.table.leases && leaseID > 0
    requires Fits(now + Nanoseconds(ttl))
    ensures var s' := Renew(s, key, leaseID, ownerID, ttl, now);
            Guarded(CleanedUp(s', clock), key) <==> clock < now + Nanoseconds(ttl)
  {
    RenewExtends(s, key, leaseID, ownerID, ttl, now);
    hide Renew;
  }

  /** A successful acquire makes a lease nobody had before, with the asked time, no keys,
      and puts the owner's entry; all other leases and entries are as before. */
  lemma AcquireGrants(s: LockState, key: string, ttl: int, ownerID: string, now: int)
    requires TableOk(s.table) && !Guarded(s, key)
    ensures var s' := Acquired(s, key, ttl, ownerID, now);
            var id := s'.table.counter;
            && id !in s.table.leases && id in s'.table.leases && OthersSame(s.table, s'.table, id)
            && s'.locks == s.locks[key := LockInfo(id, ownerID)] && Guarded(s', key)
            && var lease, deadline := s'.table.leases[id], now + Nanoseconds(ttl);
               && lease.ttl * 1_000_000_000 == Nanoseconds(ttl)
               && (Fits(deadline) ==> lease.expireAt == deadline)
               && lease.keys == map[]
  {
  }

  /** A refused acquire changes nothing. */
  lemma RefusedAcquireIsIdle(s: LockState, key: string, ttl: int, ownerID: string, now: int)
    requires Guarded(s, key)
    ensures Acquired(s, key, ttl, ownerID, now) == s
  {
  }

  /** An owner's release takes its lease away, so that the lock is free for anyone; all
      other leases and entries are as before. Anyone else's release changes nothing. */
  lemma ReleaseFrees(s: LockState, key: string, leaseID: int, ownerID: string)
    ensures var s' := Unlocked(s, key, leaseID, ownerID);
            if Owns(s, key, leaseID, ownerID)
            then && leaseID !in s'.table.leases && OthersSame(s.table, s'.table, leaseID)
                 && s'.table.counter == s.table.counter
                 && !Guarded(s', key)
                 && s'.locks - {key} == s.locks - {key}
            else s' == s
  {
    hide KeysOf;
  }

  /** A status query changes no lease and no lock that is held; it forgets the entry
      exactly if its lease is gone. */
  lemma QueryIsInvisible(s: LockState, key: string, other: string)
    ensures var s' := Queried(s, key);
            && s'.table == s.table
            && (Guarded(s', other) <==> Guarded(s, other))
            && (other in s'.locks <==>
                  other in s.locks && (other == key ==> s.locks[key].leaseID in s.table.leases))
            && (other in s'.locks ==> s'.locks[other] == s.locks[other])
  {
  }

  // ----- Locks and commands on one lease table -----

  /** The state machine and the lock manager share the lease table. */
  datatype Shared = Shared(s: State, locks: map<string, LockInfo>, issued: set<Handle>)

  datatype SharedEvent = Serve(i: Input) | Lock(e: Event)

  function WorldOf(w: Shared): World {
    World(LockState(w.locks, w.s.table), w.issued)
  }

  ghost function SharedStep(w: Shared, e: SharedEvent): Shared {
    match e
    case Serve(i) => w.(s := Live(w.s, i))
    case Lock(e) =>
      if e.LeasesMove? then w else
        var v := Step(WorldOf(w), e);
        Shared(w.s.(table := v.s.table), v.s.locks, v.issued)
  }

  ghost function SharedRun(w: Shared, events: seq<SharedEvent>): Shared {
    if events == [] then w else SharedStep(SharedRun(w, events[..|events| - 1]), events[|events| - 1])
  }

  lemma TableChangeKeepsInv(s: State, t: Table)
    requires Inv(s) && Sound(s.(table := t))
    ensures Inv(s.(table := t))
  {
  }

  lemma DropSound(s: State, id: int)
    requires Sound(s)
    ensures Sound(s.(table := Dropped(s.table, id)))
  {
    var t := Dropped(s.table, id);
    forall i, k | Holds(t, i, k) ensures HeldOk(s.store, t, i, k) {
      assert Holds(s.table, i, k) && HeldOk(s.store, s.table, i, k);
    }
  }

  lemma LockStepKeepsInv(w: Shared, e: Event)
    requires Inv(w.s) && !e.LeasesMove?
    ensures Inv(SharedStep(w, Lock(e)).s)
  {
    hide Sound, Deadline, EffectiveTtl, KeysOf;
    var s := w.s;
    assert Sound(s);
    match e
    case Acquire(key, ttl, ownerID, now) =>
      GrantSound(s, EffectiveTtl(ttl), Deadline(now, EffectiveTtl(ttl)));
      hide Inv;
      TableChangeKeepsInv(s, Granted(s.table, EffectiveTtl(ttl), Deadline(now, EffectiveTtl(ttl))));
    case Release(key, leaseID, ownerID) =>
      DropSound(s, leaseID);
      hide Inv;
      TableChangeKeepsInv(s, Dropped(s.table, leaseID));
    case Renewal(leaseID, ttl, now) =>
      RenewSound(s, leaseID, EffectiveTtl(ttl), Deadline(now, EffectiveTtl(ttl)));
      hide Inv;
      TableChangeKeepsInv(s, Renewed(s.table, leaseID, EffectiveTtl(ttl), Deadline(now, EffectiveTtl(ttl))));
    case Status(key) =>
  }

  lemma SharedStepOk(w: Shared, e: SharedEvent)
    requires Inv(w.s) && LocksOk(WorldOf(w))
    ensures Inv(SharedStep(w, e).s) && LocksOk(WorldOf(SharedStep(w, e)))
  {
    hide Inv, LocksOk;
    match e
    case Serve(i) =>
      LiveKeepsInv(w.s, i);
      CommandsEvolveLeases(w.s, i);
      hide Live;
      StepOk(WorldOf(w), LeasesMove(Live(w.s, i).table));
    case Lock(e) =>
      if !e.LeasesMove? {
        LockStepKeepsInv(w, e);
        hide Step;
        StepOk(WorldOf(w), e);
      }
  }

  lemma {:induction false} SharedRunOk(w: Shared, events: seq<SharedEvent>)
    requires Inv(w.s) && LocksOk(WorldOf(w))
    ensures Inv(SharedRun(w, events).s) && LocksOk(WorldOf(SharedRun(w, events)))
  {
    hide Inv, LocksOk, SharedStep;
    if events != [] {
      SharedRunOk(w, events[..|events| - 1]);
      SharedStepOk(SharedRun(w, events[..|events| - 1]), events[|events| - 1]);
    }
  }

  ghost predicate Exclusive(w: World) {
    forall h, h' ::
      h in w.issued && h' in w.issued && h.key == h'.key && Backed(w, h) && Backed(w, h') ==> h == h'
  }

  /** In every run that mixes commands of the log with lock traffic outside it, the
      leases and the store stay coherent and locks stay exclusive. */
  lemma LocksAndLeasesCoexist(w: Shared, events: seq<SharedEvent>)
    requires Inv(w.s) && w.locks == map[] && w.issued == {}
    ensures Inv(SharedRun(w, events).s) && Exclusive(WorldOf(SharedRun(w, events)))
  {
    hide SharedRun;
    assert LocksOk(WorldOf(w));
    SharedRunOk(w, events);
  }

  /** Forgetting entries is harmless exactly when the lease is gone or none of the
      named keys has an entry for it. */
  lemma ForgettingIsSafeIff(w: World, leaseID: int, keys: seq<string>)
    requires LocksOk(w)
    ensures LocksOk(w.(s := Forgotten(w.s, leaseID, keys)))
       <==> leaseID !in w.s.table.leases || forall key :: key in keys && key in w.s.locks ==> w.s.locks[key].leaseID != leaseID
  {
    var w' := w.(s := Forgotten(w.s, leaseID, keys));
    if leaseID in w.s.table.leases {
      forall key | key in keys && key in w.s.locks && w.s.locks[key].leaseID == leaseID ensures !LocksOk(w') {
        var h := Handle(key, leaseID, w.s.locks[key].ownerID);
        assert h in w'.issued && Backed(w', h) && !Owns(w'.s, h.key, h.leaseID, h.ownerID);
      }
    }
    if leaseID !in w.s.table.leases || forall key :: key in keys && key in w.s.locks ==> w.s.locks[key].leaseID != leaseID {
      forall h | h in w'.issued && Backed(w', h) ensures Owns(w'.s, h.key, h.leaseID, h.ownerID) {
        assert Backed(w, h);
      }
    }
  }
}
