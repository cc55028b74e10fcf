/** What a client can observe of one command: the answer it gets, the record that is
    journaled, and what the state looks like afterwards. */
module Outcomes {
  import opened Commands
  import opened SortedKeys
  import opened MvccStore
  import opened LeaseTable
  import opened StateMachine
  import opened Histories
  import opened Replication

  // ----- Keys and leases -----

  /** A put or attach under a live lease leaves the key with the written value, held by
      that lease with that value and by no other. */
  lemma LeasedKeyIsHeld(s: State, i: Input)
    requires Inv(s) && (i.cmd.typ.Put? || i.cmd.typ.LeaseAttach?)
    requires i.cmd.leaseID > 0 && i.cmd.leaseID in s.table.leases
    ensures var s', c := Live(s, i), i.cmd;
            && (forall id :: Holds(s'.table, id, c.key) <==> id == c.leaseID)
            && s'.table.leases[c.leaseID].keys[c.key] == c.value
            && c.key in View(s'.store) && View(s'.store)[c.key] == c.value
  {
    var s' := Live(s, i);
    FlatSimulates(s, i);
    FlattenTable(s);
    FlattenTable(s');
    ViewIsFlat(s');
    hide Inv, Live, Flatten, View;
  }

  /** A put without a lease, and a delete, leave the key held by none. */
  lemma UnleasedKeyIsFree(s: State, i: Input)
    requires Inv(s) && (i.cmd.typ.Delete? || (i.cmd.typ.Put? && i.cmd.leaseID <= 0))
    ensures forall id :: !Holds(Live(s, i).table, id, i.cmd.key)
    ensures i.cmd.key in View(Live(s, i).store) <==> i.cmd.typ.Put?
  {
    assert 0 !in s.table.leases by { InvBounds(s); }
    var s' := Live(s, i);
    FlatSimulates(s, i);
    FlattenTable(s);
    FlattenTable(s');
    ViewIsFlat(s');
    hide Inv, Live, Flatten, View;
  }

  lemma FlatRevoke(f: Flat, c: Command)
    requires c.typ.LeaseRevoke? && c.leaseID in f.table.leases
    requires c.expireAt <= 0 || f.table.leases[c.leaseID].expireAt == c.expireAt
    ensures var f' := FlatStep(f, c);
            && c.leaseID !in f'.table.leases
            && f'.cells == map k | k in f.cells && k !in f.table.leases[c.leaseID].keys :: f.cells[k]
  {
  }

  /** A revoke that applies takes the lease away, and every key it held. */
  lemma RevokeDeletes(s: State, i: Input, k: string)
    requires Inv(s) && i.cmd.typ.LeaseRevoke? && i.cmd.leaseID in s.table.leases
    requires i.cmd.expireAt <= 0 || s.table.leases[i.cmd.leaseID].expireAt == i.cmd.expireAt
    ensures i.cmd.leaseID !in Live(s, i).table.leases
    ensures k in View(Live(s, i).store) <==> k in View(s.store) && !Holds(s.table, i.cmd.leaseID, k)
  {
    hide Inv, Live, Flatten, View, FlatStep;
    var s' := Live(s, i);
    FlatSimulates(s, i);
    FlattenTable(s);
    FlattenTable(s');
    ViewIsFlat(s);
    ViewIsFlat(s');
    FlatRevoke(Flatten(s), Journaled(s, i));
  }

  /** What is written under a lease is gone once the lease is revoked. */
  lemma LeasedKeyDiesWithLease(s: State, i: Input, revoke: Command, now: int)
    requires Inv(s) && (i.cmd.typ.Put? || i.cmd.typ.LeaseAttach?)
    requires i.cmd.leaseID > 0 && i.cmd.leaseID in s.table.leases
    requires revoke.typ.LeaseRevoke? && revoke.leaseID == i.cmd.leaseID && revoke.expireAt <= 0
    ensures !IsLive(Live(Live(s, i), Input(revoke, now)).store, i.cmd.key)
  {
    hide Inv, Live;
    LeasedKeyIsHeld(s, i);
    LiveKeepsInv(s, i);
    assert Holds(Live(s, i).table, i.cmd.leaseID, i.cmd.key);
    RevokeDeletes(Live(s, i), Input(revoke, now), i.cmd.key);
  }

  // ----- Answers -----

  /** A compare-and-swap answers OK exactly when it appended the new version, and
      otherwise reports the failure and leaves the store alone. */
  lemma CasAnswer(s: State, i: Input)
    requires Inv(s) && i.cmd.typ.CAS?
    ensures var s', h, h' := Live(s, i), History(s.store, i.cmd.key), History(Live(s, i).store, i.cmd.key);
            && (LiveAnswer(s, i.cmd) == Words("OK") <==> h' == h + [Version(s.rev + 1, i.cmd.value, false)])
            && (LiveAnswer(s, i.cmd) == Words("CAS_FAILED") <==> s'.store == s.store)
            && (LiveAnswer(s, i.cmd) == Words("OK") || LiveAnswer(s, i.cmd) == Words("CAS_FAILED"))
  {
    InvBounds(s);
    hide Inv;
    LiveCas(s, i);
    var h := History(s.store, i.cmd.key);
    assert |h + [Version(s.rev + 1, i.cmd.value, false)]| == |h| + 1;
    assert "OK"[0] != "CAS_FAILED"[0];
  }

  /** A client that read a live revision of a key is answered OK later exactly when
      nothing has touched the key since. */
  lemma CasAnswersIffUntouched(s: State, inputs: seq<Input>, cmd: Command)
    requires Inv(s) && cmd.typ.CAS? && IsLive(s.store, cmd.key)
    requires cmd.expectedRev == Latest(s.store, cmd.key).revision
    ensures LiveAnswer(LiveRun(s, inputs), cmd) == Words("OK") <==> !RunTouches(s, inputs, cmd.key)
  {
    hide Inv, LiveRun, RunTouches;
    CasSucceedsIffUntouched(s, inputs, cmd.key);
    assert "OK"[0] != "CAS_FAILED"[0];
  }

  /** A grant answers the one id that is new in the lease table; its lease has the
      requested time-to-live, the journaled deadline and no keys. */
  lemma GrantAnswer(s: State, i: Input)
    requires Inv(s) && i.cmd.typ.LeaseGrant?
    ensures var s', a := Live(s, i), LiveAnswer(s, i.cmd);
            && a.Number? && a.n !in s.table.leases
            && s'.table.leases.Keys == s.table.leases.Keys + {a.n}
            && s'.table.leases[a.n].ttl == (if i.cmd.ttl > 0 then i.cmd.ttl else 10)
            && s'.table.leases[a.n].expireAt == Journaled(s, i).expireAt
            && s'.table.leases[a.n].keys == map[]
            && forall id :: id in s.table.leases ==> s'.table.leases[id] == s.table.leases[id]
  {
    assert TableOk(s.table);
    hide Inv, StampedDeadline;
  }

  /** A keep-alive answers OK exactly when the lease is there afterwards with the
      journaled deadline; it keeps its keys, and nothing else changes. */
  lemma KeepAliveAnswer(s: State, i: Input)
    requires Inv(s) && i.cmd.typ.LeaseKeepAlive?
    ensures var s', id := Live(s, i), i.cmd.leaseID;
            && (LiveAnswer(s, i.cmd) == Words("OK") <==>
                  id in s'.table.leases && s'.table.leases[id].expireAt == Journaled(s, i).expireAt)
            && (LiveAnswer(s, i.cmd) == Words("ERROR") <==> id !in s'.table.leases)
            && s'.store == s.store && s'.table.leases.Keys == s.table.leases.Keys
            && (forall j :: j in s.table.leases ==> s'.table.leases[j].keys == s.table.leases[j].keys)
            && (forall j :: j in s.table.leases && j != id ==> s'.table.leases[j] == s.table.leases[j])
  {
    assert "OK"[0] != "ERROR"[0];
    hide Inv, StampedDeadline;
  }

  ghost function Grown(a: Store, b: Store): set<string> {
    set k | k in b.data && |History(b, k)| > |History(a, k)|
  }

  lemma {:induction false} DistinctCount(ks: seq<string>)
    requires Distinct(ks)
    ensures |Elements(ks)| == |ks|
  {
    if ks != [] {
      var n := |ks| - 1;
      DistinctCount(ks[..n]);
      assert Elements(ks) == Elements(ks[..n]) + {ks[n]} by { assert ks == ks[..n] + [ks[n]]; }
      assert ks[n] !in Elements(ks[..n]);
    } else {
      assert Elements(ks) == {};
    }
  }

  /** A prefix delete answers the number of keys that gained a version. */
  lemma PrefixAnswer(s: State, i: Input)
    requires Inv(s) && i.cmd.typ.DeletePrefix?
    ensures LiveAnswer(s, i.cmd) == Number(|Grown(s.store, Live(s, i).store)|)
  {
    hide Inv, Live, DeletePrefixStore, TombstoneFrom;
    LivePrefix(s, i);
    var a, b := s.store, Live(s, i).store;
    var ks := DeletedKeys(a, i.cmd.prefix);
    AscendingDistinct(ks);
    DistinctCount(ks);
    InvBounds(s);
    forall k ensures k in Grown(a, b) <==> k in Elements(ks) {
      PrefixGrows(s, i.cmd.prefix, k);
    }
    assert Grown(a, b) == Elements(ks);
  }

  /** A get of the present answers the plain map's value, a get of the past the newest
      version then visible; a get changes nothing. */
  lemma GetAnswer(s: State, i: Input)
    requires i.cmd.typ.Get?
    ensures Live(s, i) == s
    ensures LiveAnswer(s, i.cmd) == Words(ReadAt(History(s.store, i.cmd.key), i.cmd.revision).0)
    ensures i.cmd.revision == 0 ==>
              LiveAnswer(s, i.cmd) == Words(if i.cmd.key in View(s.store) then View(s.store)[i.cmd.key] else "")
  {
    PlainRead(s.store, i.cmd.key);
  }

  /** A prefix read answers the live keys that extend the prefix, with their values. */
  lemma GetPrefixAnswer(s: State, i: Input, k: string)
    requires i.cmd.typ.GetPrefix?
    ensures Live(s, i) == s
    ensures var a, cells := LiveAnswer(s, i.cmd), Flatten(s).cells;
            && a.Pairs?
            && (k in a.pairs <==> k in cells && exists rest: string :: k == i.cmd.prefix + rest)
            && (k in a.pairs ==> a.pairs[k] == cells[k].value)
  {
    ViewIsFlat(s);
    HasPrefixMeans(k, i.cmd.prefix);
    hide View, Flatten;
  }

  /** Attach and revoke always answer OK, put and delete nothing. */
  lemma OtherAnswers(s: State, cmd: Command)
    ensures cmd.typ.LeaseAttach? || cmd.typ.LeaseRevoke? ==> LiveAnswer(s, cmd) == Words("OK")
    ensures cmd.typ.Put? || cmd.typ.Delete? || cmd.typ.Unknown? ==> LiveAnswer(s, cmd) == Words("")
  {
  }

  // ----- Records and revisions -----

  /** A record is the command itself, but for the revision of the five writing types and
      the deadline of a lease command that came without one. */
  lemma RecordIsCommand(s: State, i: Input)
    ensures var c, t := Journaled(s, i), i.cmd.typ;
            && c.(revision := i.cmd.revision, expireAt := i.cmd.expireAt) == i.cmd
            && c.revision == (if t.Put? || t.Delete? || t.CAS? || t.LeaseAttach? || t.DeletePrefix? then s.rev + 1
                              else i.cmd.revision)
            && c.expireAt == (if (t.LeaseGrant? || t.LeaseKeepAlive?) && i.cmd.expireAt <= 0
                              then WrapInt64(Requested(i.cmd, i.now)) else i.cmd.expireAt)
  {
  }

  /** The revision after a command: one more for a write, one more for each key of a
      revoked lease, and for a prefix delete what the store has used up, if that is more. */
  lemma LiveRevision(s: State, i: Input)
    requires Inv(s)
    ensures var t, rev := i.cmd.typ, Live(s, i).rev;
            && (t.Put? || t.Delete? || t.CAS? || t.LeaseAttach? ==> rev == s.rev + 1)
            && (t.DeletePrefix? ==>
                  var used := s.store.rev + |Matching(s.store, i.cmd.prefix)|;
                  rev == if used > s.rev + 1 then used else s.rev + 1)
            && (t.LeaseRevoke? ==>
                  rev == s.rev + if i.cmd.leaseID in s.table.leases && i.cmd.leaseID !in Live(s, i).table.leases
                                 then |s.table.leases[i.cmd.leaseID].keys| else 0)
            && (t.LeaseGrant? || t.LeaseKeepAlive? || t.Get? || t.GetPrefix? || t.Unknown? ==> rev == s.rev)
  {
    InvBounds(s);
    match i.cmd.typ
    case DeletePrefix =>
      var ks := DeletedKeys(s.store, i.cmd.prefix);
      AscendingDistinct(ks);
      DistinctCount(ks);
      TombstoneFromRev(s.store, s.store.rev, ks);
      hide Inv, TombstoneFrom, Matching;
    case LeaseRevoke =>
      LiveRevoke(s, i);
      if i.cmd.leaseID in s.table.leases { RevokedCount(s.table, i.cmd.leaseID); }
      hide Inv, Live, TombstoneFrom, KeysOf;
    case _ =>
      hide Inv, ApplyStore, Attached, DetachedAll;
  }

  lemma RevokedCount(t: Table, id: int)
    requires id in t.leases
    ensures |KeysOf(t, id)| == |t.leases[id].keys|
  {
    KeysOfElements(t, id);
    AscendingDistinct(KeysOf(t, id));
    DistinctCount(KeysOf(t, id));
    assert |t.leases[id].keys.Keys| == |t.leases[id].keys|;
  }

  /** A record of a write without a revision is replayed as if it arrived live. */
  lemma UnnumberedRecord(s: State, c: Command, now: int)
    requires Inv(s) && IsWrite(c.typ) && c.revision == 0
    ensures Recovered(s, c, now) == Some(Live(s, Input(c, now)))
  {
    hide Inv, Live, RecoveredEffect, Recovered;
    RecoveredIsLive(s, Input(c, now), now);
    SameReplay(s, c, now);
  }

  lemma SameReplay(s: State, c: Command, now: int)
    requires Inv(s) && IsWrite(c.typ) && c.revision == 0
    ensures Recovered(s, c, now) == Recovered(s, Journaled(s, Input(c, now)), now)
  {
    InvBounds(s);
    hide Inv, RecoveredEffect;
  }
}
