/** The replicated state machine of the server, written twice as the server does:
    once for the apply loop and once for recovery from the journal. */
module StateMachine {
  import opened Commands
  import opened SortedKeys
  import opened MvccStore
  import opened LeaseTable

  datatype State = State(store: Store, table: Table, rev: int)

  const INITIAL := State(EMPTY_STORE, EMPTY_TABLE, 0)

  /** A committed command and the local clock at the moment it is applied. */
  datatype Input = Input(cmd: Command, now: int)

  // ----- The apply loop -----

  /** The record the apply loop writes to the journal before it acts. */
  function Journaled(s: State, i: Input): Command {
    var c := if IsWrite(i.cmd.typ) then i.cmd.(revision := s.rev + 1) else i.cmd;
    if SetsDeadline(c.typ) then c.(expireAt := StampedDeadline(c, i.now)) else c
  }

  /** One turn of the apply loop. */
  ghost function Live(s: State, i: Input): State {
    Effect(if IsWrite(i.cmd.typ) then s.(rev := s.rev + 1) else s, Journaled(s, i))
  }

  /** What the apply loop does after journaling c, its revision already taken. */
  ghost function Effect(s: State, c: Command): State {
    match c.typ
    case Put =>
      if c.leaseID > 0
      then State(SetLease(ApplyStore(s.store, c), c.key, c.leaseID),
                 Attached(Detached(s.table, c.key), c.leaseID, c.key, c.value), s.rev)
      else s.(store := ApplyStore(s.store, c), table := Detached(s.table, c.key))
    case Delete =>
      s.(store := ApplyStore(s.store, c), table := Detached(s.table, c.key))
    case LeaseGrant =>
      s.(table := Granted(s.table, EffectiveTtl(c.ttl), c.expireAt))
    case LeaseRevoke =>
      if c.leaseID > 0 && RevokeApplies(s.table, c.leaseID, c.expireAt)
      then RevokeEffect(s, c.leaseID)
      else s
    case LeaseAttach =>
      if c.leaseID > 0
      then State(ApplyStore(SetLease(s.store, c.key, c.leaseID), c.(typ := Put)),
                 Attached(Detached(s.table, c.key), c.leaseID, c.key, c.value), s.rev)
      else s
    case LeaseKeepAlive =>
      s.(table := Renewed(s.table, c.leaseID, EffectiveTtl(c.ttl), c.expireAt))
    case CAS =>
      if CasMatches(s.store, c.key, c.expectedRev) && LeaseOf(s.store, c.key) > 0
      then s.(store := ApplyStore(s.store, c),
              table := Attached(s.table, LeaseOf(s.store, c.key), c.key, c.value))
      else s.(store := ApplyStore(s.store, c))
    case DeletePrefix =>
      CatchUp(s.(store := DeletePrefixStore(s.store, c.prefix),
                 table := DetachedAll(s.table, Matching(s.store, c.prefix))))
    case Get => s
    case GetPrefix => s
    case Unknown(_) => s
  }

  /** Dropping a lease deletes its keys in sorted order, one revision each. */
  ghost function RevokeEffect(s: State, id: int): State {
    var ks := KeysOf(s.table, id);
    State(TombstoneFrom(s.store, s.rev, ks), Dropped(s.table, id), s.rev + |ks|)
  }

  function CatchUp(s: State): State {
    if s.store.rev > s.rev then s.(rev := s.store.rev) else s
  }

  datatype Answer = Words(words: string) | Number(n: int) | Pairs(pairs: map<string, string>)

  /** The result the apply loop hands back to the waiting caller. */
  ghost function LiveAnswer(s: State, cmd: Command): Answer {
    match cmd.typ
    case LeaseGrant => Number(s.table.counter + 1)
    case LeaseRevoke => Words("OK")
    case LeaseKeepAlive => Words(if cmd.leaseID in s.table.leases then "OK" else "ERROR")
    case LeaseAttach => Words("OK")
    case CAS => Words(if CasMatches(s.store, cmd.key, cmd.expectedRev) then "OK" else "CAS_FAILED")
    case DeletePrefix => Number(|DeletedKeys(s.store, cmd.prefix)|)
    case GetPrefix => Pairs(map k | k in View(s.store) && HasPrefix(k, cmd.prefix) :: View(s.store)[k])
    case Get => Words(ReadAt(History(s.store, cmd.key), cmd.revision).0)
    case _ => Words("")
  }

  // ----- Recovery -----

  /** Replaying one journal record at startup; None is a startup error. */
  ghost function Recovered(s: State, c: Command, now: int): Option<State> {
    if IsWrite(c.typ) && c.revision == 0 then
      RecoveredEffect(s.(rev := s.rev + 1), c.(revision := s.rev + 1), now)
    else if IsWrite(c.typ) && c.revision > s.rev then
      RecoveredEffect(s.(rev := c.revision), c, now)
    else
      RecoveredEffect(s, c, now)
  }

  ghost function RecoveredEffect(s: State, c: Command, now: int): Option<State> {
    match c.typ
    case LeaseGrant =>
      var expireAt := if c.expireAt <= 0 then Deadline(now, EffectiveTtl(c.ttl)) else c.expireAt;
      Some(CatchUp(s.(table := Granted(s.table, EffectiveTtl(c.ttl), expireAt))))
    case LeaseRevoke =>
      if RevokeApplies(s.table, c.leaseID, c.expireAt)
      then Some(CatchUp(RevokeEffect(s, c.leaseID)))
      else Some(CatchUp(s))
    case LeaseKeepAlive =>
      var expireAt := if c.expireAt <= 0 then Deadline(now, EffectiveTtl(c.ttl)) else c.expireAt;
      Some(CatchUp(s.(table := Renewed(s.table, c.leaseID, EffectiveTtl(c.ttl), expireAt))))
    case LeaseAttach =>
      if c.leaseID > 0
      then Some(CatchUp(State(ApplyStore(SetLease(s.store, c.key, c.leaseID), c.(typ := Put)),
                              Attached(Detached(s.table, c.key), c.leaseID, c.key, c.value), s.rev)))
      else Some(CatchUp(s))
    case DeletePrefix =>
      Some(CatchUp(s.(store := DeletePrefixStore(s.store, c.prefix),
                      table := DetachedAll(s.table, Matching(s.store, c.prefix)))))
    case GetPrefix => Some(CatchUp(s))
    case CAS =>
      var attach := CasMatches(s.store, c.key, c.expectedRev) && LeaseOf(s.store, c.key) > 0;
      Some(CatchUp(s.(store := ApplyStore(s.store, c),
                      table := if attach then Attached(s.table, LeaseOf(s.store, c.key), c.key, c.value) else s.table)))
    case _ =>
      var table := if c.typ.Put? || c.typ.Delete? then Detached(s.table, c.key) else s.table;
      if ApplyReply(s.store, c).UnknownType? then None
      else if c.typ.Put? && c.leaseID > 0
      then Some(CatchUp(State(SetLease(ApplyStore(s.store, c), c.key, c.leaseID),
                              Attached(table, c.leaseID, c.key, c.value), s.rev)))
      else Some(CatchUp(State(ApplyStore(s.store, c), table, s.rev)))
  }

  // ----- Runs -----

  ghost function LiveRun(s: State, inputs: seq<Input>): State {
    if inputs == [] then s else Live(LiveRun(s, inputs[..|inputs| - 1]), inputs[|inputs| - 1])
  }

  /** The records a live run leaves in the journal. */
  ghost function Journal(s: State, inputs: seq<Input>): seq<Command> {
    if inputs == [] then []
    else Journal(s, inputs[..|inputs| - 1]) +
         [Journaled(LiveRun(s, inputs[..|inputs| - 1]), inputs[|inputs| - 1])]
  }

  /** Replaying a list of records; the first one that fails aborts recovery. */
  ghost function Replay(s: State, records: seq<Command>, now: int): Option<State> {
    if records == [] then Some(s)
    else
      var before := Replay(s, records[..|records| - 1], now);
      if before.None? then None else Recovered(before.value, records[|records| - 1], now)
  }

  // ----- Invariants -----

  /** The store agrees with a lease about a key the lease holds. */
  ghost predicate HeldOk(st: Store, t: Table, id: int, k: string)
    requires Holds(t, id, k)
  {
    && k in st.key2Lease && st.key2Lease[k] == id
    && IsLive(st, k)
    && Latest(st, k).value == t.leases[id].keys[k]
  }

  ghost predicate Coherent(st: Store, t: Table) {
    forall id, k :: Holds(t, id, k) ==> HeldOk(st, t, id, k)
  }

  /** What even a replayed foreign journal cannot break. */
  ghost predicate Sound(s: State) {
    TableOk(s.table) && Coherent(s.store, s.table)
  }

  ghost predicate Inv(s: State) {
    && StoreOk(s.store)
    && RevisionsUnique(s.store)
    && Sound(s)
    && s.store.rev <= s.rev
  }

  /** The command reaches the state machine with a usable deadline. */
  ghost predicate InputOk(i: Input) {
    SetsDeadline(i.cmd.typ) ==> StampedDeadline(i.cmd, i.now) > 0
  }

  ghost predicate InputsOk(inputs: seq<Input>) {
    forall j :: 0 <= j < |inputs| ==> InputOk(inputs[j])
  }

  /** No key is held by two leases. */
  lemma CoherentIsExclusive(st: Store, t: Table, k: string)
    requires Coherent(st, t)
    ensures AtMostOneHolder(t, k)
  {
    forall id, id' | Holds(t, id, k) && Holds(t, id', k) ensures id == id' {
      assert HeldOk(st, t, id, k) && HeldOk(st, t, id', k);
    }
  }

  lemma InvBounds(s: State)
    requires Inv(s)
    ensures 0 <= s.store.rev <= s.rev
    ensures forall id :: id in s.table.leases ==> id > 0
  {
  }

  lemma BumpKeepsInv(s: State)
    requires Inv(s)
    ensures Inv(s.(rev := s.rev + 1))
  {
  }

  // ----- Writes keep the store well formed -----

  lemma SetLeaseOk(s: Store, k: string, id: int)
    requires StoreOk(s) && id > 0 && IsLive(s, k)
    ensures StoreOk(SetLease(s, k, id))
  {
    hide HistoryOk;
    var s' := SetLease(s, k, id);
    forall k' | k' in s'.key2Lease ensures s'.key2Lease[k'] > 0 && IsLive(s', k') {
      assert IsLive(s', k') == IsLive(s, k');
      if k' != k { assert k' in s.key2Lease; }
    }
  }

  /** The store after a write of a live value at a fresh revision. */
  ghost function Written(s: Store, k: string, r: int, value: string, id: int): Store {
    var s' := AddVersion(s, k, r, value, false);
    if id > 0 then SetLease(s', k, id) else Unlease(s', k)
  }

  lemma WrittenOk(s: Store, k: string, r: int, value: string, id: int)
    requires StoreOk(s) && RevisionsUnique(s) && r > s.rev
    ensures StoreOk(Written(s, k, r, value, id)) && RevisionsUnique(Written(s, k, r, value, id))
    ensures Written(s, k, r, value, id).rev == r
  {
    hide StoreOk, RevisionsUnique;
    var s' := AddVersion(s, k, r, value, false);
    AddVersionOk(s, k, r, value, false);
    AddVersionUnique(s, k, r, value, false);
    if id > 0 {
      SetLeaseOk(s', k, id);
      SameDataUnique(s', SetLease(s', k, id));
    } else {
      UnleaseOk(s', k);
      SameDataUnique(s', Unlease(s', k));
    }
    assert r > 0 by { StoreRevNonNegative(s); }
  }

  lemma StoreRevNonNegative(s: Store)
    requires StoreOk(s)
    ensures s.rev >= 0
  {
  }

  lemma SameDataUnique(a: Store, b: Store)
    requires RevisionsUnique(a) && a.data == b.data
    ensures RevisionsUnique(b)
  {
  }

  // ----- Coherence, key by key -----

  ghost predicate SameAt(a: Store, b: Store, k: string) {
    && History(a, k) == History(b, k)
    && (k in a.key2Lease <==> k in b.key2Lease)
    && LeaseOf(a, k) == LeaseOf(b, k)
  }

  ghost predicate SameElsewhere(a: Store, b: Store, ks: set<string>) {
    forall k :: k !in ks ==> SameAt(a, b, k)
  }

  /** Coherent for every key but one, which at most the given lease holds. */
  ghost predicate CoherentBut(st: Store, t: Table, k0: string, id0: int) {
    && (forall id, k :: Holds(t, id, k) && k != k0 ==> HeldOk(st, t, id, k))
    && (forall id :: Holds(t, id, k0) ==> id == id0)
  }

  lemma DetachedHolds(t: Table, ks: set<string>, id: int, k: string)
    ensures Holds(DetachedAll(t, ks), id, k) <==> Holds(t, id, k) && k !in ks
    ensures Holds(DetachedAll(t, ks), id, k) ==> DetachedAll(t, ks).leases[id].keys[k] == t.leases[id].keys[k]
  {
  }

  lemma CoherentDetach(st: Store, st': Store, t: Table, ks: set<string>)
    requires Coherent(st, t) && SameElsewhere(st, st', ks)
    ensures Coherent(st', DetachedAll(t, ks))
  {
    var t' := DetachedAll(t, ks);
    forall id, k | Holds(t', id, k) ensures HeldOk(st', t', id, k) {
      DetachedHolds(t, ks, id, k);
      assert HeldOk(st, t, id, k) && SameAt(st, st', k);
    }
  }

  lemma CoherentDrop(st: Store, st': Store, t: Table, id0: int)
    requires Coherent(st, t) && id0 in t.leases
    requires SameElsewhere(st, st', t.leases[id0].keys.Keys)
    ensures Coherent(st', Dropped(t, id0))
  {
    var t' := Dropped(t, id0);
    forall id, k | Holds(t', id, k) ensures HeldOk(st', t', id, k) {
      assert Holds(t, id, k) && HeldOk(st, t, id, k);
      CoherentIsExclusive(st, t, k);
      assert !Holds(t, id0, k);
      assert SameAt(st, st', k);
    }
  }

  lemma CoherentAttach(st: Store, t: Table, id0: int, k0: string, value: string)
    requires CoherentBut(st, t, k0, id0)
    requires k0 in st.key2Lease && st.key2Lease[k0] == id0
    requires IsLive(st, k0) && Latest(st, k0).value == value
    ensures Coherent(st, Attached(t, id0, k0, value))
  {
    var t' := Attached(t, id0, k0, value);
    forall id, k | Holds(t', id, k) ensures HeldOk(st, t', id, k) {
      if k != k0 {
        assert Holds(t, id, k) && HeldOk(st, t, id, k);
      } else if id != id0 {
        assert Holds(t, id, k);
      }
    }
  }

  lemma DetachedBut(st: Store, st': Store, t: Table, k0: string, id0: int)
    requires Coherent(st, t) && SameElsewhere(st, st', {k0})
    ensures CoherentBut(st', Detached(t, k0), k0, id0)
  {
    CoherentDetach(st, st', t, {k0});
    forall id ensures !Holds(Detached(t, k0), id, k0) { DetachedHolds(t, {k0}, id, k0); }
  }

  lemma WrittenSameElsewhere(s: Store, k: string, r: int, value: string, id: int)
    ensures SameElsewhere(s, Written(s, k, r, value, id), {k})
  {
  }

  lemma {:induction false} TombstonesSameElsewhere(s: Store, base: int, ks: seq<string>)
    ensures SameElsewhere(s, TombstoneFrom(s, base, ks), Elements(ks))
  {
    if ks != [] {
      var n := |ks| - 1;
      assert ks == ks[..n] + [ks[n]];
      TombstonesSameElsewhere(s, base, ks[..n]);
      TombstoneSameElsewhere(TombstoneFrom(s, base, ks[..n]), ks[n], base + |ks|);
      hide SameAt, TombstoneAt;
      forall k | k !in Elements(ks) ensures SameAt(s, TombstoneFrom(s, base, ks), k) {
        assert k !in Elements(ks[..n]) && k !in {ks[n]};
        SameAtTransitive(s, TombstoneFrom(s, base, ks[..n]), TombstoneFrom(s, base, ks), k);
      }
    }
  }

  lemma TombstoneSameElsewhere(s: Store, k: string, r: int)
    ensures SameElsewhere(s, TombstoneAt(s, k, r), {k})
  {
  }

  lemma SameAtTransitive(a: Store, b: Store, c: Store, k: string)
    requires SameAt(a, b, k) && SameAt(b, c, k)
    ensures SameAt(a, c, k)
  {
  }

  // ----- Tables -----

  lemma DetachedOk(t: Table, ks: set<string>)
    requires TableOk(t)
    ensures TableOk(DetachedAll(t, ks))
  {
  }

  lemma AttachedOk(t: Table, id: int, k: string, value: string)
    requires TableOk(t)
    ensures TableOk(Attached(t, id, k, value))
  {
  }

  // ----- Each effect keeps the leases and the store in step -----

  /** The effect of writing a live value and handing the key to a lease, or to none. */
  ghost function WriteState(s: State, k: string, r: int, value: string, id: int): State {
    s.(store := Written(s.store, k, r, value, id),
       table := if id > 0 then Attached(Detached(s.table, k), id, k, value) else Detached(s.table, k))
  }

  lemma WriteSound(s: State, k: string, r: int, value: string, id: int)
    requires Sound(s)
    ensures Sound(WriteState(s, k, r, value, id))
  {
    hide TableOk, Coherent;
    var st := Written(s.store, k, r, value, id);
    WrittenSameElsewhere(s.store, k, r, value, id);
    DetachedOk(s.table, {k});
    if id > 0 {
      AttachedOk(Detached(s.table, k), id, k, value);
      DetachedBut(s.store, st, s.table, k, id);
      CoherentAttach(st, Detached(s.table, k), id, k, value);
    } else {
      CoherentDetach(s.store, st, s.table, {k});
    }
  }

  lemma DeleteSound(s: State, k: string, r: int)
    requires Sound(s)
    ensures Sound(s.(store := TombstoneAt(s.store, k, r), table := Detached(s.table, k)))
  {
    hide TableOk, Coherent, TombstoneAt;
    TombstoneSameElsewhere(s.store, k, r);
    DetachedOk(s.table, {k});
    CoherentDetach(s.store, TombstoneAt(s.store, k, r), s.table, {k});
  }

  ghost function SwapState(s: State, k: string, r: int, value: string): State {
    s.(store := AddVersion(s.store, k, r, value, false),
       table := if LeaseOf(s.store, k) > 0 then Attached(s.table, LeaseOf(s.store, k), k, value) else s.table)
  }

  lemma SwapSound(s: State, k: string, r: int, value: string)
    requires Sound(s)
    ensures Sound(SwapState(s, k, r, value))
  {
    var st := AddVersion(s.store, k, r, value, false);
    var id := LeaseOf(s.store, k);
    CasCoherent(s.store, st, s.table, k);
    hide TableOk, Coherent;
    AttachedOk(s.table, id, k, value);
    if id > 0 {
      CoherentAttach(st, s.table, id, k, value);
    }
  }

  /** After a version is added to a key whose lease entry stays, only that key can
      be out of step, and only with the lease the entry names. */
  lemma CasCoherent(st: Store, st': Store, t: Table, k: string)
    requires Coherent(st, t) && TableOk(t)
    requires SameElsewhere(st, st', {k}) && st'.key2Lease == st.key2Lease
    ensures CoherentBut(st', t, k, LeaseOf(st, k))
    ensures LeaseOf(st, k) <= 0 ==> Coherent(st', t)
  {
    forall id, k' | Holds(t, id, k') ensures k' == k ==> id == LeaseOf(st, k) && id > 0 {
      assert HeldOk(st, t, id, k');
    }
    forall id, k' | Holds(t, id, k') && k' != k ensures HeldOk(st', t, id, k') {
      assert HeldOk(st, t, id, k') && SameAt(st, st', k');
    }
  }

  lemma RevokeSound(s: State, id: int)
    requires Sound(s) && id in s.table.leases
    ensures Sound(RevokeEffect(s, id))
  {
    var ks := KeysOf(s.table, id);
    assert TableOk(Dropped(s.table, id));
    hide TableOk, Coherent, KeysOf;
    KeysOfElements(s.table, id);
    TombstonesSameElsewhere(s.store, s.rev, ks);
    CoherentDrop(s.store, TombstoneFrom(s.store, s.rev, ks), s.table, id);
  }

  ghost function PrefixState(s: State, prefix: string): State {
    s.(store := DeletePrefixStore(s.store, prefix), table := DetachedAll(s.table, Matching(s.store, prefix)))
  }

  lemma PrefixSound(s: State, prefix: string)
    requires Sound(s)
    ensures Sound(PrefixState(s, prefix))
  {
    hide TableOk, Coherent, DetachedAll;
    TombstonesSameElsewhere(s.store, s.store.rev, DeletedKeys(s.store, prefix));
    DetachedOk(s.table, Matching(s.store, prefix));
    CoherentDetach(s.store, DeletePrefixStore(s.store, prefix), s.table, Matching(s.store, prefix));
  }

  lemma GrantSound(s: State, ttl: int, expireAt: int)
    requires Sound(s)
    ensures Sound(s.(table := Granted(s.table, ttl, expireAt)))
  {
    var t' := Granted(s.table, ttl, expireAt);
    forall id, k | Holds(t', id, k) ensures HeldOk(s.store, t', id, k) {
      assert Holds(s.table, id, k) && HeldOk(s.store, s.table, id, k);
    }
  }

  lemma RenewSound(s: State, id: int, ttl: int, expireAt: int)
    requires Sound(s)
    ensures Sound(s.(table := Renewed(s.table, id, ttl, expireAt)))
  {
    var t' := Renewed(s.table, id, ttl, expireAt);
    forall id', k | Holds(t', id', k) ensures HeldOk(s.store, t', id', k) {
      assert Holds(s.table, id', k) && HeldOk(s.store, s.table, id', k);
    }
  }

  lemma EffectKeepsSound(s: State, c: Command)
    requires Sound(s)
    ensures Sound(Effect(s, c))
  {
    hide Sound, TombstoneFrom, DetachedAll, Attached, CasMatches, LeaseOf;
    match c.typ
    case Put => PutIsWrite(s, c); WriteSound(s, c.key, c.revision, c.value, c.leaseID);
    case Delete => DeleteSound(s, c.key, c.revision);
    case LeaseGrant => GrantSound(s, EffectiveTtl(c.ttl), c.expireAt);
    case LeaseRevoke =>
      if c.leaseID > 0 && RevokeApplies(s.table, c.leaseID, c.expireAt) { RevokeSound(s, c.leaseID); }
    case LeaseAttach =>
      if c.leaseID > 0 { PutIsWrite(s, c); WriteSound(s, c.key, c.revision, c.value, c.leaseID); }
    case LeaseKeepAlive => RenewSound(s, c.leaseID, EffectiveTtl(c.ttl), c.expireAt);
    case CAS => if CasMatches(s.store, c.key, c.expectedRev) { SwapSound(s, c.key, c.revision, c.value); }
    case DeletePrefix => PrefixSound(s, c.prefix); CatchUpSound(PrefixState(s, c.prefix));
    case _ =>
  }

  lemma CatchUpSound(s: State)
    requires Sound(s)
    ensures Sound(CatchUp(s))
  {
  }

  lemma RecoveredEffectKeepsSound(s: State, c: Command, now: int)
    requires Sound(s) && RecoveredEffect(s, c, now).Some?
    ensures Sound(RecoveredEffect(s, c, now).value)
  {
    hide Sound, TombstoneFrom, DetachedAll, Attached, CasMatches, LeaseOf, CatchUp, Deadline;
    match c.typ
    case Put =>
      PutIsWrite(s, c);
      WriteSound(s, c.key, c.revision, c.value, c.leaseID);
      CatchUpSound(WriteState(s, c.key, c.revision, c.value, c.leaseID));
    case Delete =>
      DeleteSound(s, c.key, c.revision);
      CatchUpSound(s.(store := TombstoneAt(s.store, c.key, c.revision), table := Detached(s.table, c.key)));
    case LeaseGrant =>
      var expireAt := if c.expireAt <= 0 then Deadline(now, EffectiveTtl(c.ttl)) else c.expireAt;
      GrantSound(s, EffectiveTtl(c.ttl), expireAt);
      CatchUpSound(s.(table := Granted(s.table, EffectiveTtl(c.ttl), expireAt)));
    case LeaseRevoke =>
      if RevokeApplies(s.table, c.leaseID, c.expireAt) { RevokeSound(s, c.leaseID); }
      CatchUpSound(if RevokeApplies(s.table, c.leaseID, c.expireAt) then RevokeEffect(s, c.leaseID) else s);
    case LeaseAttach =>
      if c.leaseID > 0 {
        PutIsWrite(s, c);
        WriteSound(s, c.key, c.revision, c.value, c.leaseID);
        CatchUpSound(WriteState(s, c.key, c.revision, c.value, c.leaseID));
      } else {
        CatchUpSound(s);
      }
    case LeaseKeepAlive =>
      var expireAt := if c.expireAt <= 0 then Deadline(now, EffectiveTtl(c.ttl)) else c.expireAt;
      RenewSound(s, c.leaseID, EffectiveTtl(c.ttl), expireAt);
      CatchUpSound(s.(table := Renewed(s.table, c.leaseID, EffectiveTtl(c.ttl), expireAt)));
    case CAS =>
      if CasMatches(s.store, c.key, c.expectedRev) {
        SwapSound(s, c.key, c.revision, c.value);
        CatchUpSound(SwapState(s, c.key, c.revision, c.value));
      } else {
        CatchUpSound(s);
      }
    case DeletePrefix => PrefixSound(s, c.prefix); CatchUpSound(PrefixState(s, c.prefix));
    case _ => CatchUpSound(s);
  }

  /** Replaying any record at all keeps the leases and the store in step. */
  lemma RecoveredKeepsSound(s: State, c: Command, now: int)
    requires Sound(s) && Recovered(s, c, now).Some?
    ensures Sound(Recovered(s, c, now).value)
  {
    hide RecoveredEffect;
    if IsWrite(c.typ) && c.revision == 0 {
      RecoveredEffectKeepsSound(s.(rev := s.rev + 1), c.(revision := s.rev + 1), now);
    } else if IsWrite(c.typ) && c.revision > s.rev {
      RecoveredEffectKeepsSound(s.(rev := c.revision), c, now);
    } else {
      RecoveredEffectKeepsSound(s, c, now);
    }
  }

  // ----- Every turn of the apply loop keeps the invariant -----

  lemma RevokeStoreOk(s: State, id: int)
    requires Inv(s)
    ensures StoreOk(RevokeEffect(s, id).store) && RevisionsUnique(RevokeEffect(s, id).store)
    ensures RevokeEffect(s, id).store.rev <= RevokeEffect(s, id).rev
  {
    hide StoreOk, RevisionsUnique, Sound, KeysOf;
    StoreRevNonNegative(s.store);
    TombstoneFromOk(s.store, s.rev, KeysOf(s.table, id));
    TombstoneFromUnique(s.store, s.rev, KeysOf(s.table, id));
    TombstoneFromRev(s.store, s.rev, KeysOf(s.table, id));
  }

  lemma PrefixStoreOk(s: Store, prefix: string)
    requires StoreOk(s) && RevisionsUnique(s)
    ensures StoreOk(DeletePrefixStore(s, prefix)) && RevisionsUnique(DeletePrefixStore(s, prefix))
  {
    hide StoreOk, RevisionsUnique, DeletedKeys;
    StoreRevNonNegative(s);
    TombstoneFromOk(s, s.rev, DeletedKeys(s, prefix));
    TombstoneFromUnique(s, s.rev, DeletedKeys(s, prefix));
  }

  /** The two ways a live value is written agree. */
  lemma PutIsWrite(s: State, c: Command)
    requires c.typ.Put? || (c.typ.LeaseAttach? && c.leaseID > 0)
    ensures Effect(s, c) == WriteState(s, c.key, c.revision, c.value, c.leaseID)
  {
  }

  /** The store a command leaves behind, its revision being fresh. */
  lemma EffectStoreOk(s: State, c: Command)
    requires Inv(s)
    requires IsWrite(c.typ) ==> c.revision == s.rev > s.store.rev
    ensures StoreOk(Effect(s, c).store) && RevisionsUnique(Effect(s, c).store)
    ensures Effect(s, c).store.rev <= Effect(s, c).rev
  {
    hide StoreOk, RevisionsUnique, Sound, TombstoneFrom, DetachedAll, Attached, CasMatches;
    StoreRevNonNegative(s.store);
    match c.typ
    case Put => PutIsWrite(s, c); WrittenOk(s.store, c.key, s.rev, c.value, c.leaseID);
    case Delete => TombstoneOk(s.store, c.key, s.rev); TombstoneUnique(s.store, c.key, s.rev);
    case LeaseRevoke => RevokeStoreOk(s, c.leaseID);
    case LeaseAttach =>
      if c.leaseID > 0 { PutIsWrite(s, c); WrittenOk(s.store, c.key, s.rev, c.value, c.leaseID); }
    case CAS =>
      if CasMatches(s.store, c.key, c.expectedRev) {
        AddVersionOk(s.store, c.key, s.rev, c.value, false);
        AddVersionUnique(s.store, c.key, s.rev, c.value, false);
      }
    case DeletePrefix => PrefixStoreOk(s.store, c.prefix);
    case _ =>
  }

  lemma EffectKeepsInv(s: State, c: Command)
    requires Inv(s)
    requires IsWrite(c.typ) ==> c.revision == s.rev > s.store.rev
    ensures Inv(Effect(s, c))
  {
    hide StoreOk, RevisionsUnique, Sound, Effect;
    EffectStoreOk(s, c);
    EffectKeepsSound(s, c);
  }

  lemma LiveKeepsInv(s: State, i: Input)
    requires Inv(s)
    ensures Inv(Live(s, i))
  {
    hide Inv, Effect;
    InvBounds(s);
    BumpKeepsInv(s);
    EffectKeepsInv(if IsWrite(i.cmd.typ) then s.(rev := s.rev + 1) else s, Journaled(s, i));
  }

  lemma InitialInv()
    ensures Inv(INITIAL)
  {
  }

  /** Every state a command-driven run reaches is coherent: a key held by a lease
      is held by no other, its store entry names that lease, and its latest version
      is live with the value the lease records. */
  lemma {:induction false} ReachableInv(s: State, inputs: seq<Input>)
    requires Inv(s)
    ensures Inv(LiveRun(s, inputs))
  {
    hide Inv;
    if inputs != [] {
      ReachableInv(s, inputs[..|inputs| - 1]);
      LiveKeepsInv(LiveRun(s, inputs[..|inputs| - 1]), inputs[|inputs| - 1]);
    }
  }

  lemma RevokePositive(s: State, id: int)
    requires Positive(s.table)
    ensures Positive(RevokeEffect(s, id).table)
  {
    hide TombstoneFrom;
  }

  lemma EffectPositive(s: State, c: Command)
    requires Positive(s.table) && Stamped(c)
    ensures Positive(Effect(s, c).table)
  {
    hide ApplyStore, RevokeEffect, CasMatches, LeaseOf, DeletePrefixStore, Matching;
    if c.typ.LeaseRevoke? {
      RevokePositive(s, c.leaseID);
    }
  }

  /** Stamped commands keep every time-to-live and deadline positive. */
  lemma {:induction false} ReachablePositive(s: State, inputs: seq<Input>)
    requires Positive(s.table) && InputsOk(inputs)
    ensures Positive(LiveRun(s, inputs).table)
  {
    hide Positive, Effect;
    if inputs != [] {
      var n := |inputs| - 1;
      var m := LiveRun(s, inputs[..n]);
      ReachablePositive(s, inputs[..n]);
      assert InputOk(inputs[n]);
      EffectPositive(if IsWrite(inputs[n].cmd.typ) then m.(rev := m.rev + 1) else m, Journaled(m, inputs[n]));
    }
  }
}
