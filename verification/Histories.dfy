/** What readers and compare-and-swap callers may rely on across a whole run:
    histories only grow, old revisions read the same, a revision read once can be
    used as a guard, and the newest versions behave like a plain map. */
module Histories {
  import opened Commands
  import opened SortedKeys
  import opened MvccStore
  import opened LeaseTable
  import opened StateMachine

  // ----- Which commands write a key -----

  /** The command appends a version to the key. */
  ghost predicate Touches(s: State, cmd: Command, k: string) {
    match cmd.typ
    case Put => cmd.key == k
    case Delete => cmd.key == k
    case CAS => cmd.key == k && CasMatches(s.store, k, cmd.expectedRev)
    case LeaseAttach => cmd.key == k && cmd.leaseID > 0
    case LeaseRevoke =>
      cmd.leaseID > 0 && RevokeApplies(s.table, cmd.leaseID, cmd.expireAt) && Holds(s.table, cmd.leaseID, k)
    case DeletePrefix => k in s.store.data && HasPrefix(k, cmd.prefix)
    case _ => false
  }

  /** The place of a key in the sorted list of keys under a prefix. */
  ghost predicate RankedAt(s: Store, prefix: string, k: string, rank: int) {
    0 <= rank < |DeletedKeys(s, prefix)| && DeletedKeys(s, prefix)[rank] == k
  }

  /** One appended version, above everything the store has handed out; above the
      server's revision too unless a prefix delete wrote it. */
  ghost predicate Grew(s: State, s': State, cmd: Command, k: string) {
    var h, h' := History(s.store, k), History(s'.store, k);
    && |h'| == |h| + 1 && h'[..|h|] == h
    && s.store.rev < h'[|h|].revision <= s'.store.rev
    && (!cmd.typ.DeletePrefix? ==> h'[|h|].revision > s.rev)
    && (cmd.typ.DeletePrefix? ==> RankedAt(s.store, cmd.prefix, k, h'[|h|].revision - s.store.rev - 1))
  }

  lemma WriteGrows(s: State, k0: string, value: string, id: int, k: string)
    requires Inv(s)
    ensures var h, h' := History(s.store, k), History(Written(s.store, k0, s.rev + 1, value, id), k);
            if k == k0 then h' == h + [Version(s.rev + 1, value, false)] else h' == h
  {
  }

  lemma RevokeGrows(s: State, id: int, k: string)
    requires Inv(s) && id in s.table.leases
    ensures var h, h' := History(s.store, k), History(RevokeEffect(s, id).store, k);
            if Holds(s.table, id, k)
            then |h'| == |h| + 1 && h'[..|h|] == h && s.rev < h'[|h|].revision <= RevokeEffect(s, id).store.rev
            else h' == h
  {
    var ks := KeysOf(s.table, id);
    AscendingDistinct(ks);
    assert s.rev >= 0;
    TombstoneFromHistory(s.store, s.rev, ks, k);
    TombstoneFromRev(s.store, s.rev, ks);
    hide Inv;
    if Holds(s.table, id, k) {
      assert k in Elements(ks);
      var i :| 0 <= i < |ks| && ks[i] == k;
    } else {
      assert k !in Elements(ks);
    }
  }

  lemma PrefixGrows(s: State, prefix: string, k: string)
    requires Inv(s)
    ensures var h, h' := History(s.store, k), History(DeletePrefixStore(s.store, prefix), k);
            if k in Matching(s.store, prefix)
            then && |h'| == |h| + 1 && h'[..|h|] == h
                 && s.store.rev < h'[|h|].revision <= DeletePrefixStore(s.store, prefix).rev
                 && RankedAt(s.store, prefix, k, h'[|h|].revision - s.store.rev - 1)
            else h' == h
    ensures s.store.rev <= DeletePrefixStore(s.store, prefix).rev
  {
    var ks := DeletedKeys(s.store, prefix);
    AscendingDistinct(ks);
    TombstoneFromHistory(s.store, s.store.rev, ks, k);
    TombstoneFromRev(s.store, s.store.rev, ks);
    hide Inv;
    if k in Matching(s.store, prefix) {
      assert k in Elements(ks);
      var i :| 0 <= i < |ks| && ks[i] == k;
    } else {
      assert k !in Elements(ks);
    }
  }

  ghost predicate Stepped(s: State, i: Input, k: string) {
    && (Touches(s, i.cmd, k) ==> Grew(s, Live(s, i), i.cmd, k))
    && (!Touches(s, i.cmd, k) ==> History(Live(s, i).store, k) == History(s.store, k))
    && s.rev <= Live(s, i).rev
    && s.store.rev <= Live(s, i).store.rev
  }

  // What the apply loop makes of each kind of command.

  lemma LiveWrite(s: State, i: Input)
    requires i.cmd.typ.Put? || (i.cmd.typ.LeaseAttach? && i.cmd.leaseID > 0)
    ensures Live(s, i) == WriteState(s.(rev := s.rev + 1), i.cmd.key, s.rev + 1, i.cmd.value, i.cmd.leaseID)
  {
    PutIsWrite(s.(rev := s.rev + 1), Journaled(s, i));
    hide Effect, WriteState;
  }

  lemma LiveDelete(s: State, i: Input)
    requires i.cmd.typ.Delete?
    ensures Live(s, i) == State(TombstoneAt(s.store, i.cmd.key, s.rev + 1), Detached(s.table, i.cmd.key), s.rev + 1)
  {
    hide TombstoneAt, Detached;
  }

  lemma LiveCas(s: State, i: Input)
    requires i.cmd.typ.CAS?
    ensures !CasMatches(s.store, i.cmd.key, i.cmd.expectedRev) ==> Live(s, i) == s.(rev := s.rev + 1)
    ensures CasMatches(s.store, i.cmd.key, i.cmd.expectedRev) ==>
              Live(s, i) == State(AddVersion(s.store, i.cmd.key, s.rev + 1, i.cmd.value, false),
                                  if LeaseOf(s.store, i.cmd.key) > 0
                                  then Attached(s.table, LeaseOf(s.store, i.cmd.key), i.cmd.key, i.cmd.value)
                                  else s.table,
                                  s.rev + 1)
  {
    hide CasMatches, AddVersion, Attached, LeaseOf;
  }

  lemma LiveRevoke(s: State, i: Input)
    requires i.cmd.typ.LeaseRevoke?
    ensures Live(s, i) == if i.cmd.leaseID > 0 && RevokeApplies(s.table, i.cmd.leaseID, i.cmd.expireAt)
                          then RevokeEffect(s, i.cmd.leaseID) else s
  {
    hide RevokeEffect, RevokeApplies;
  }

  lemma LivePrefix(s: State, i: Input)
    requires i.cmd.typ.DeletePrefix?
    ensures Live(s, i).store == DeletePrefixStore(s.store, i.cmd.prefix)
    ensures Live(s, i).table == DetachedAll(s.table, Matching(s.store, i.cmd.prefix))
    ensures s.rev <= Live(s, i).rev
  {
    hide DeletePrefixStore, DetachedAll;
  }

  lemma LiveOther(s: State, i: Input)
    requires !IsWrite(i.cmd.typ) || (i.cmd.typ.LeaseAttach? && i.cmd.leaseID <= 0)
    requires !i.cmd.typ.LeaseRevoke?
    ensures Live(s, i).store == s.store
    ensures s.rev <= Live(s, i).rev
  {
    hide Granted, Renewed;
  }

  lemma StepWrite(s: State, i: Input, k: string)
    requires Inv(s)
    requires i.cmd.typ.Put? || (i.cmd.typ.LeaseAttach? && i.cmd.leaseID > 0)
    ensures Stepped(s, i, k)
  {
    hide Inv, Live;
    InvBounds(s);
    LiveWrite(s, i);
    WriteGrows(s, i.cmd.key, i.cmd.value, i.cmd.leaseID, k);
  }

  lemma StepDelete(s: State, i: Input, k: string)
    requires Inv(s) && i.cmd.typ.Delete?
    ensures Stepped(s, i, k)
  {
    hide Inv, Live, History, Detached;
    InvBounds(s);
    LiveDelete(s, i);
    TombstoneAtHistory(s.store, i.cmd.key, s.rev + 1, k);
  }

  lemma StepCas(s: State, i: Input, k: string)
    requires Inv(s) && i.cmd.typ.CAS?
    ensures Stepped(s, i, k)
  {
    hide Inv, Live, CasMatches, Attached;
    InvBounds(s);
    LiveCas(s, i);
  }

  lemma StepRevoke(s: State, i: Input, k: string)
    requires Inv(s) && i.cmd.typ.LeaseRevoke?
    ensures Stepped(s, i, k)
  {
    hide Inv, Live, TombstoneFrom, History, KeysOf;
    var id := i.cmd.leaseID;
    InvBounds(s);
    LiveRevoke(s, i);
    if id > 0 && RevokeApplies(s.table, id, i.cmd.expireAt) {
      RevokeGrows(s, id, k);
      TombstoneFromRev(s.store, s.rev, KeysOf(s.table, id));
    }
  }

  lemma StepPrefix(s: State, i: Input, k: string)
    requires Inv(s) && i.cmd.typ.DeletePrefix?
    ensures Stepped(s, i, k)
  {
    hide Inv, Live, DeletePrefixStore, DeletedKeys, History, RankedAt;
    LivePrefix(s, i);
    PrefixGrows(s, i.cmd.prefix, k);
  }

  /** A command appends exactly one version to each key it touches, above every
      revision the store has handed out, and leaves the full history of every other
      key alone. */
  lemma StepHistory(s: State, i: Input, k: string)
    requires Inv(s)
    ensures Stepped(s, i, k)
  {
    hide Inv, Live;
    var t := i.cmd.typ;
    if t.Put? || (t.LeaseAttach? && i.cmd.leaseID > 0) {
      StepWrite(s, i, k);
    } else if t.Delete? {
      StepDelete(s, i, k);
    } else if t.CAS? {
      StepCas(s, i, k);
    } else if t.LeaseRevoke? {
      StepRevoke(s, i, k);
    } else if t.DeletePrefix? {
      StepPrefix(s, i, k);
    } else {
      LiveOther(s, i);
    }
  }

  lemma NewestReadsUnbounded(h: seq<Version>, rev: int, r: int)
    requires h != [] ==> HistoryOk(h, rev)
    requires rev <= r && 1 <= r
    ensures ReadAt(h, r) == ReadAt(h, 0)
  {
  }

  lemma AppendAbove(h: seq<Version>, h': seq<Version>, r: int)
    requires |h'| == |h| + 1 && h'[..|h|] == h
    requires 1 <= r < h'[|h|].revision
    ensures ReadAt(h', r) == ReadAt(h, r)
  {
  }

  lemma AppendBelow(h: seq<Version>, h': seq<Version>, rev: int, r: int)
    requires |h'| == |h| + 1 && h'[..|h|] == h
    requires HistoryOk(h', rev) && h'[|h|].revision <= r && 1 <= r
    ensures ReadAt(h', r).1 == h'[|h|].revision > ReadAt(h, r).1
  {
    ReadRevisionBound(h, r, h'[|h|].revision);
  }

  lemma {:induction false} ReadRevisionBound(h: seq<Version>, r: int, bound: int)
    requires bound > 0 && forall i :: 0 <= i < |h| ==> h[i].revision < bound
    ensures ReadAt(h, r).1 < bound
  {
    if h != [] {
      ReadRevisionBound(h[..|h| - 1], r, bound);
    }
  }

  // ----- Time travel -----

  /** A read at a revision the store has already handed out never changes, whatever
      the run does next. */
  lemma {:induction false} OldReadsAreStable(s: State, inputs: seq<Input>, k: string, r: int)
    requires Inv(s)
    requires 1 <= r <= s.store.rev
    ensures ReadAt(History(LiveRun(s, inputs).store, k), r) == ReadAt(History(s.store, k), r)
    ensures s.store.rev <= LiveRun(s, inputs).store.rev && s.rev <= LiveRun(s, inputs).rev
  {
    hide Inv, Live, Touches, ReadAt;
    if inputs != [] {
      var n := |inputs| - 1;
      var m := LiveRun(s, inputs[..n]);
      OldReadsAreStable(s, inputs[..n], k, r);
      ReachableInv(s, inputs[..n]);
      StepHistory(m, inputs[n], k);
      if Touches(m, inputs[n].cmd, k) {
        AppendAbove(History(m.store, k), History(Live(m, inputs[n]).store, k), r);
      }
    }
  }

  /** A read at the revision of some past moment returns, for ever after, what a
      plain read returned at that moment. */
  lemma TimeTravel(s: State, inputs: seq<Input>, k: string)
    requires Inv(s) && s.store.rev >= 1
    ensures ReadAt(History(LiveRun(s, inputs).store, k), s.store.rev) == ReadAt(History(s.store, k), 0)
  {
    OldReadsAreStable(s, inputs, k, s.store.rev);
    assert k in s.store.data ==> HistoryOk(s.store.data[k], s.store.rev);
    NewestReadsUnbounded(History(s.store, k), s.store.rev, s.store.rev);
  }

  /** A prefix delete gives k a tombstone at or below r, out of the store's own
      counter, which can lag behind the server's. */
  ghost predicate Backfills(s: State, cmd: Command, k: string, r: int) {
    cmd.typ.DeletePrefix? &&
    exists rank :: RankedAt(s.store, cmd.prefix, k, rank) && s.store.rev + 1 + rank <= r
  }

  /** The read at r shows the same version before and after one command exactly when
      the command does not backfill it; otherwise it shows a newer one. */
  lemma StepRead(s: State, i: Input, k: string, r: int)
    requires Inv(s) && 1 <= r <= s.rev
    ensures !Backfills(s, i.cmd, k, r) ==>
              ReadAt(History(Live(s, i).store, k), r) == ReadAt(History(s.store, k), r)
    ensures Backfills(s, i.cmd, k, r) ==>
              ReadAt(History(Live(s, i).store, k), r).1 > ReadAt(History(s.store, k), r).1
  {
    hide Inv, Live, ReadAt, HistoryOk, RankedAt, DeletedKeys, History, HasPrefix, CasMatches, RevokeApplies;
    var s' := Live(s, i);
    var h, h' := History(s.store, k), History(s'.store, k);
    StepHistory(s, i, k);
    LiveKeepsInv(s, i);
    InvHistory(s', k);
    if Backfills(s, i.cmd, k, r) {
      RankedMatches(s.store, i.cmd.prefix, k);
    }
    if Touches(s, i.cmd, k) {
      if h'[|h|].revision <= r {
        AppendBelow(h, h', s'.store.rev, r);
      } else {
        AppendAbove(h, h', r);
        RankUnique(s.store, i.cmd.prefix, k);
      }
    }
  }

  lemma InvHistory(s: State, k: string)
    requires Inv(s)
    ensures History(s.store, k) != [] ==> HistoryOk(History(s.store, k), s.store.rev)
  {
  }

  lemma RankedMatches(s: Store, prefix: string, k: string)
    requires exists rank :: RankedAt(s, prefix, k, rank)
    ensures k in s.data && HasPrefix(k, prefix)
  {
    var rank :| RankedAt(s, prefix, k, rank);
    assert k in Elements(DeletedKeys(s, prefix));
  }

  lemma RankUnique(s: Store, prefix: string, k: string)
    ensures forall a, b :: RankedAt(s, prefix, k, a) && RankedAt(s, prefix, k, b) ==> a == b
  {
    AscendingDistinct(DeletedKeys(s, prefix));
  }

  ghost predicate RunBackfills(s: State, inputs: seq<Input>, k: string, r: int) {
    exists j :: 0 <= j < |inputs| && Backfills(LiveRun(s, inputs[..j]), inputs[j].cmd, k, r)
  }

  lemma RunBackfillsSplit(s: State, inputs: seq<Input>, k: string, r: int)
    requires inputs != []
    ensures var n := |inputs| - 1;
            RunBackfills(s, inputs, k, r) <==>
              RunBackfills(s, inputs[..n], k, r) || Backfills(LiveRun(s, inputs[..n]), inputs[n].cmd, k, r)
  {
    hide Backfills, LiveRun;
    var n := |inputs| - 1;
    if RunBackfills(s, inputs[..n], k, r) {
      var j :| 0 <= j < n && Backfills(LiveRun(s, inputs[..n][..j]), inputs[..n][j].cmd, k, r);
      assert inputs[..n][..j] == inputs[..j];
    }
    if RunBackfills(s, inputs, k, r) {
      var j :| 0 <= j < |inputs| && Backfills(LiveRun(s, inputs[..j]), inputs[j].cmd, k, r);
      if j < n { assert inputs[..n][..j] == inputs[..j] && inputs[..n][j] == inputs[j]; }
    }
  }

  lemma {:induction false} RunRead(s: State, inputs: seq<Input>, k: string, r: int)
    requires Inv(s) && 1 <= r <= s.rev
    ensures var before, after := ReadAt(History(s.store, k), r), ReadAt(History(LiveRun(s, inputs).store, k), r);
            if RunBackfills(s, inputs, k, r) then before.1 < after.1 else before == after
    ensures s.rev <= LiveRun(s, inputs).rev
  {
    hide Inv, Live, Backfills, ReadAt, RunBackfills;
    if inputs != [] {
      var n := |inputs| - 1;
      var m := LiveRun(s, inputs[..n]);
      RunRead(s, inputs[..n], k, r);
      ReachableInv(s, inputs[..n]);
      StepRead(m, inputs[n], k, r);
      StepHistory(m, inputs[n], k);
      RunBackfillsSplit(s, inputs, k, r);
    } else {
      assert !RunBackfills(s, inputs, k, r) by { EmptyRun(s, k, r); }
    }
  }

  lemma EmptyRun(s: State, k: string, r: int)
    ensures !RunBackfills(s, [], k, r)
  {
  }

  /** Against the server's own revision the promise is weaker: a read at r up to that
      revision stays as it is exactly when no later prefix delete backfills it. */
  lemma ServerReadsStableIff(s: State, inputs: seq<Input>, k: string, r: int)
    requires Inv(s) && 1 <= r <= s.rev
    ensures ReadAt(History(LiveRun(s, inputs).store, k), r) == ReadAt(History(s.store, k), r) <==>
              !RunBackfills(s, inputs, k, r)
  {
    hide *;
    RunRead(s, inputs, k, r);
  }

  function Simple(typ: CommandType, key: string, value: string, expectedRev: int): Command {
    Command(typ, key, value, 0, 0, 0, 0, false, expectedRev, "")
  }

  /** The weaker promise is really weaker: a put, a failed compare-and-swap that uses
      up a server revision, and a prefix delete change what revision 2 reads. */
  lemma FailedCasLetsPrefixDeleteBackfill()
    ensures var s := Live(Live(INITIAL, Input(Simple(Put, "a", "v", 0), 0)), Input(Simple(CAS, "a", "w", 7), 0));
            var s' := Live(s, Input(Simple(DeletePrefix, "", "", 0), 0));
            && s.rev == 2
            && ReadAt(History(s.store, "a"), 2) == ("v", 1)
            && ReadAt(History(s'.store, "a"), 2).1 == 2
  {
    hide Live, DetachedAll;
    var put, cas := Input(Simple(Put, "a", "v", 0), 0), Input(Simple(CAS, "a", "w", 7), 0);
    var del := Input(Simple(DeletePrefix, "", "", 0), 0);
    LiveWrite(INITIAL, put);
    var s1 := Live(INITIAL, put);
    LiveCas(s1, cas);
    var s := Live(s1, cas);
    assert History(s.store, "a") == [Version(1, "v", false)] && s.store.data.Keys == {"a"} && s.store.rev == 1;
    AscendingUnique(DeletedKeys(s.store, ""), ["a"]);
    TombstoneFromHistory(s.store, 1, ["a"], "a");
    LivePrefix(s, del);
    assert History(Live(s, del).store, "a") == [Version(1, "v", false), Version(2, "", true)];
  }

  // ----- Compare-and-swap -----

  ghost predicate RunTouches(s: State, inputs: seq<Input>, k: string) {
    exists j :: 0 <= j < |inputs| && Touches(LiveRun(s, inputs[..j]), inputs[j].cmd, k)
  }

  lemma RunTouchesSplit(s: State, inputs: seq<Input>, k: string)
    requires inputs != []
    ensures var n := |inputs| - 1;
            RunTouches(s, inputs, k) <==>
              RunTouches(s, inputs[..n], k) || Touches(LiveRun(s, inputs[..n]), inputs[n].cmd, k)
  {
    hide Touches, LiveRun;
    var n := |inputs| - 1;
    if RunTouches(s, inputs[..n], k) {
      var j :| 0 <= j < n && Touches(LiveRun(s, inputs[..n][..j]), inputs[..n][j].cmd, k);
      assert inputs[..n][..j] == inputs[..j];
    }
    if RunTouches(s, inputs, k) {
      var j :| 0 <= j < |inputs| && Touches(LiveRun(s, inputs[..j]), inputs[j].cmd, k);
      if j < n { assert inputs[..n][..j] == inputs[..j] && inputs[..n][j] == inputs[j]; }
    }
  }

  /** Over a run a key's history is either untouched or ends in a strictly newer
      revision than any it had. */
  lemma {:induction false} RunHistory(s: State, inputs: seq<Input>, k: string)
    requires Inv(s)
    ensures var h, h' := History(s.store, k), History(LiveRun(s, inputs).store, k);
            if RunTouches(s, inputs, k)
            then |h'| > |h| && h'[..|h|] == h && h'[|h'| - 1].revision > s.store.rev
            else h' == h
    ensures s.store.rev <= LiveRun(s, inputs).store.rev
  {
    hide Inv, Live, Touches, RunTouches, History;
    if inputs != [] {
      var n := |inputs| - 1;
      var m := LiveRun(s, inputs[..n]);
      RunHistory(s, inputs[..n], k);
      ReachableInv(s, inputs[..n]);
      StepHistory(m, inputs[n], k);
      RunTouchesSplit(s, inputs, k);
      GrownTwice(History(s.store, k), History(m.store, k), History(Live(m, inputs[n]).store, k));
    } else {
      assert !RunTouches(s, inputs, k) by { EmptyRunTouchesNothing(s, k); }
    }
  }

  lemma GrownTwice(a: seq<Version>, b: seq<Version>, c: seq<Version>)
    ensures |a| <= |b| <= |c| && b[..|a|] == a && c[..|b|] == b ==> c[..|a|] == a
  {
    if |a| <= |b| <= |c| && b[..|a|] == a && c[..|b|] == b {
      assert c[..|a|] == c[..|b|][..|a|];
    }
  }

  lemma EmptyRunTouchesNothing(s: State, k: string)
    ensures !RunTouches(s, [], k)
  {
  }

  /** A caller that read a live revision of a key may use it as a guard later: the
      compare-and-swap succeeds exactly when no write, delete, attach, lease revoke
      or prefix delete has touched the key since. */
  lemma CasSucceedsIffUntouched(s: State, inputs: seq<Input>, k: string)
    requires Inv(s) && IsLive(s.store, k)
    ensures CasMatches(LiveRun(s, inputs).store, k, Latest(s.store, k).revision) <==> !RunTouches(s, inputs, k)
  {
    hide *;
    LiveHasHistory(s.store, k);
    InvHistory(s, k);
    RunHistory(s, inputs, k);
    CasOnHistories(s.store, LiveRun(s, inputs).store, k);
  }

  lemma LiveHasHistory(st: Store, k: string)
    requires IsLive(st, k)
    ensures History(st, k) != []
  {
  }

  lemma CasOnHistories(a: Store, b: Store, k: string)
    requires IsLive(a, k) && HistoryOk(History(a, k), a.rev)
    ensures History(b, k) == History(a, k) ==> CasMatches(b, k, Latest(a, k).revision)
    ensures var h' := History(b, k);
            h' != [] && h'[|h'| - 1].revision > a.rev ==> !CasMatches(b, k, Latest(a, k).revision)
  {
  }

  // ----- The newest versions are a plain map -----

  datatype Cell = Cell(value: string, revision: int, lease: int)

  /** The reference machine: one cell per live key, and the lease table. */
  datatype Flat = Flat(cells: map<string, Cell>, table: Table)

  ghost function Flatten(s: State): Flat {
    Flat(map k | k in s.store.data && IsLive(s.store, k) ::
           Cell(Latest(s.store, k).value, Latest(s.store, k).revision, LeaseOf(s.store, k)),
         s.table)
  }

  ghost function WithoutPrefix(t: Table, prefix: string): Table {
    t.(leases := map id | id in t.leases ::
         t.leases[id].(keys := map k | k in t.leases[id].keys && !HasPrefix(k, prefix) :: t.leases[id].keys[k]))
  }

  /** The key is held by the given lease, if there is one, and by no other. */
  ghost function HandedOver(t: Table, k: string, value: string, id: int): Table {
    t.(leases := map j | j in t.leases ::
         t.leases[j].(keys := (map k' | k' in t.leases[j].keys && k' != k :: t.leases[j].keys[k'])
                              + if j == id then map[k := value] else map[]))
  }

  /** The given lease records the value of the key, the others are as they were. */
  ghost function Noted(t: Table, k: string, value: string, id: int): Table {
    t.(leases := map j | j in t.leases ::
         if j == id then t.leases[j].(keys := t.leases[j].keys + map[k := value]) else t.leases[j])
  }

  /** The given lease has a new time-to-live and deadline, the others are as they were. */
  ghost function Extended(t: Table, id: int, ttl: int, expireAt: int): Table {
    t.(leases := map j | j in t.leases ::
         if j == id then Lease(j, ttl, expireAt, t.leases[j].keys) else t.leases[j])
  }

  ghost function FlatWrite(f: Flat, c: Command): Flat {
    var id := if c.leaseID > 0 then c.leaseID else 0;
    Flat(f.cells[c.key := Cell(c.value, c.revision, id)], HandedOver(f.table, c.key, c.value, id))
  }

  /** One journaled command on the plain map and the plain leases. */
  ghost function FlatStep(f: Flat, c: Command): Flat {
    var leases, next := f.table.leases, f.table.counter + 1;
    var ttl := if c.ttl > 0 then c.ttl else 10;
    match c.typ
    case Put => FlatWrite(f, c)
    case LeaseAttach => if c.leaseID > 0 then FlatWrite(f, c) else f
    case Delete => Flat(f.cells - {c.key}, HandedOver(f.table, c.key, "", 0))
    case CAS =>
      if c.key in f.cells && f.cells[c.key].revision == c.expectedRev
      then Flat(f.cells[c.key := Cell(c.value, c.revision, f.cells[c.key].lease)],
                Noted(f.table, c.key, c.value, f.cells[c.key].lease))
      else f
    case LeaseRevoke =>
      if c.leaseID in leases && (c.expireAt <= 0 || leases[c.leaseID].expireAt == c.expireAt)
      then Flat(map k | k in f.cells && k !in leases[c.leaseID].keys :: f.cells[k],
                f.table.(leases := map j | j in leases && j != c.leaseID :: leases[j]))
      else f
    case DeletePrefix =>
      Flat(map k | k in f.cells && !HasPrefix(k, c.prefix) :: f.cells[k], WithoutPrefix(f.table, c.prefix))
    case LeaseGrant => f.(table := Table(leases + map[next := Lease(next, ttl, c.expireAt, map[])], next))
    case LeaseKeepAlive => f.(table := Extended(f.table, c.leaseID, ttl, c.expireAt))
    case _ => f
  }

  ghost function FlatRun(f: Flat, journal: seq<Command>): Flat {
    if journal == [] then f
    else FlatStep(FlatRun(f, journal[..|journal| - 1]), journal[|journal| - 1])
  }

  ghost function CellAt(st: Store, k: string): Option<Cell> {
    if IsLive(st, k) then Some(Cell(Latest(st, k).value, Latest(st, k).revision, LeaseOf(st, k))) else None
  }

  ghost predicate CellsOf(cells: map<string, Cell>, st: Store) {
    forall k :: (if k in cells then Some(cells[k]) else None) == CellAt(st, k)
  }

  lemma FlattenCells(s: State)
    ensures CellsOf(Flatten(s).cells, s.store)
  {
  }

  lemma CellsUnique(a: map<string, Cell>, b: map<string, Cell>, st: Store)
    requires CellsOf(a, st) && CellsOf(b, st)
    ensures a == b
  {
    hide CellAt;
    forall k ensures k in a <==> k in b { assert k in a <==> CellAt(st, k).Some?; assert k in b <==> CellAt(st, k).Some?; }
    forall k | k in a ensures a[k] == b[k] { assert Some(a[k]) == CellAt(st, k) == Some(b[k]); }
  }

  lemma FlatWritten(st: Store, cells: map<string, Cell>, k0: string, r: int, value: string, id: int)
    requires CellsOf(cells, st) && r != 0
    ensures CellsOf(cells[k0 := Cell(value, r, if id > 0 then id else 0)], Written(st, k0, r, value, id))
  {
    var st' := Written(st, k0, r, value, id);
    forall k | k != k0 ensures CellAt(st', k) == CellAt(st, k) { WrittenSameElsewhere(st, k0, r, value, id); }
  }

  lemma FlatDeleted(st: Store, cells: map<string, Cell>, k0: string, r: int)
    requires CellsOf(cells, st) && r != 0
    ensures CellsOf(cells - {k0}, TombstoneAt(st, k0, r))
  {
    forall k ensures CellAt(TombstoneAt(st, k0, r), k) == if k == k0 then None else CellAt(st, k) {
      TombstoneAtHistory(st, k0, r, k);
    }
  }

  lemma FlatTombstones(st: Store, cells: map<string, Cell>, base: int, ks: seq<string>)
    requires CellsOf(cells, st) && 0 <= base && Ascending(ks)
    ensures CellsOf(cells - Elements(ks), TombstoneFrom(st, base, ks))
  {
    var st' := TombstoneFrom(st, base, ks);
    AscendingDistinct(ks);
    forall k ensures CellAt(st', k) == if k in Elements(ks) then None else CellAt(st, k) {
      TombstoneFromHistory(st, base, ks, k);
      if k in Elements(ks) {
        var i :| 0 <= i < |ks| && ks[i] == k;
      }
    }
    hide CellAt;
  }

  lemma FlatCas(st: Store, cells: map<string, Cell>, k0: string, r: int, value: string)
    requires CellsOf(cells, st) && r != 0 && k0 in cells
    ensures CellsOf(cells[k0 := Cell(value, r, cells[k0].lease)], AddVersion(st, k0, r, value, false))
  {
    var st' := AddVersion(st, k0, r, value, false);
    assert CellAt(st, k0) == Some(cells[k0]);
    forall k | k != k0 ensures CellAt(st', k) == CellAt(st, k) { }
    assert CellAt(st', k0) == Some(Cell(value, r, cells[k0].lease));
    hide CellAt;
  }

  /** Held keys are live, so taking the deleted keys out of the leases is taking the
      prefix out of them. */
  lemma PrefixDetaches(s: State, prefix: string)
    requires Inv(s)
    ensures DetachedAll(s.table, Matching(s.store, prefix)) == WithoutPrefix(s.table, prefix)
  {
    var a, b := DetachedAll(s.table, Matching(s.store, prefix)), WithoutPrefix(s.table, prefix);
    forall id | id in s.table.leases ensures a.leases[id].keys == b.leases[id].keys {
      forall k | k in s.table.leases[id].keys ensures k in s.store.data {
        assert Holds(s.table, id, k) && HeldOk(s.store, s.table, id, k);
      }
    }
    assert a.leases == b.leases;
  }

  lemma WithoutKey(keys: map<string, string>, k: string)
    ensures keys - {k} == map k' | k' in keys && k' != k :: keys[k']
  {
  }

  lemma HandedOverLease(t: Table, k: string, value: string, id: int, j: int)
    requires j in t.leases && id >= 0 && (id == 0 ==> 0 !in t.leases)
    ensures var t' := if id > 0 then Attached(Detached(t, k), id, k, value) else Detached(t, k);
            j in t'.leases && t'.leases[j] == HandedOver(t, k, value, id).leases[j]
  {
    WithoutKey(t.leases[j].keys, k);
    var keys := t.leases[j].keys - {k};
    assert keys[k := value] == keys + map[k := value] && keys + map[] == keys;
  }

  lemma HandedOverIs(t: Table, k: string, value: string, id: int)
    requires TableOk(t) && id >= 0
    ensures HandedOver(t, k, value, id) == if id > 0 then Attached(Detached(t, k), id, k, value) else Detached(t, k)
  {
    var t' := if id > 0 then Attached(Detached(t, k), id, k, value) else Detached(t, k);
    assert 0 !in t.leases;
    assert t'.leases.Keys == t.leases.Keys;
    forall j | j in t.leases ensures t'.leases[j] == HandedOver(t, k, value, id).leases[j] {
      hide *;
      HandedOverLease(t, k, value, id, j);
    }
    assert HandedOver(t, k, value, id).leases.Keys == t.leases.Keys;
    hide HandedOver, Attached, DetachedAll, TableOk;
    assert t'.leases == HandedOver(t, k, value, id).leases;
  }

  lemma NotedIs(t: Table, k: string, value: string, id: int)
    requires TableOk(t)
    ensures id > 0 ==> Attached(t, id, k, value) == Noted(t, k, value, id)
    ensures id <= 0 ==> t == Noted(t, k, value, id)
  {
    if id > 0 {
      var a, b := Attached(t, id, k, value).leases, Noted(t, k, value, id).leases;
      forall j | j in t.leases ensures a[j] == b[j] {
        assert j == id ==> a[j].keys == b[j].keys;
      }
      assert a == b;
    } else {
      assert t.leases == Noted(t, k, value, id).leases;
    }
  }

  lemma ExtendedIs(t: Table, id: int, ttl: int, expireAt: int)
    requires TableOk(t)
    ensures Renewed(t, id, ttl, expireAt) == Extended(t, id, ttl, expireAt)
  {
    assert Renewed(t, id, ttl, expireAt).leases == Extended(t, id, ttl, expireAt).leases;
  }

  lemma FlattenTable(s: State)
    ensures Flatten(s).table == s.table
  {
  }

  /** A flat state with the right cells and the right table is the flattening. */
  lemma FlattenIs(s: State, f: Flat)
    requires CellsOf(f.cells, s.store) && f.table == s.table
    ensures Flatten(s) == f
  {
    hide CellsOf;
    FlattenCells(s);
    CellsUnique(Flatten(s).cells, f.cells, s.store);
  }

  lemma FlatSimWrite(s: State, i: Input)
    requires Inv(s) && (i.cmd.typ.Put? || (i.cmd.typ.LeaseAttach? && i.cmd.leaseID > 0))
    ensures Flatten(Live(s, i)) == FlatWrite(Flatten(s), Journaled(s, i))
  {
    hide Inv, Live, Flatten, CellsOf, Written, Detached, Attached, HandedOver, TableOk;
    InvTable(s);
    HandedOverIs(s.table, i.cmd.key, i.cmd.value, if i.cmd.leaseID > 0 then i.cmd.leaseID else 0);
    InvBounds(s);
    LiveWrite(s, i);
    FlattenCells(s);
    FlattenTable(s);
    FlatWritten(s.store, Flatten(s).cells, i.cmd.key, s.rev + 1, i.cmd.value, i.cmd.leaseID);
    FlattenIs(Live(s, i), FlatWrite(Flatten(s), Journaled(s, i)));
  }

  lemma FlatSimDelete(s: State, i: Input)
    requires Inv(s) && i.cmd.typ.Delete?
    ensures Flatten(Live(s, i)) == FlatStep(Flatten(s), Journaled(s, i))
  {
    hide Inv, Live, Flatten, CellsOf, TombstoneAt, Detached, HandedOver, TableOk;
    InvTable(s);
    HandedOverIs(s.table, i.cmd.key, "", 0);
    InvBounds(s);
    LiveDelete(s, i);
    FlattenCells(s);
    FlattenTable(s);
    FlatDeleted(s.store, Flatten(s).cells, i.cmd.key, s.rev + 1);
    FlattenIs(Live(s, i), FlatStep(Flatten(s), Journaled(s, i)));
  }

  lemma FlatCasGuard(s: State, k: string, expected: int)
    ensures var f := Flatten(s);
            CasMatches(s.store, k, expected) <==> k in f.cells && f.cells[k].revision == expected
    ensures CasMatches(s.store, k, expected) ==> Flatten(s).cells[k].lease == LeaseOf(s.store, k)
  {
  }

  lemma FlatSimCas(s: State, i: Input)
    requires Inv(s) && i.cmd.typ.CAS?
    ensures Flatten(Live(s, i)) == FlatStep(Flatten(s), Journaled(s, i))
  {
    hide Inv, Live, Flatten, CellsOf, AddVersion, Attached, CasMatches, LeaseOf, Noted, TableOk;
    InvTable(s);
    NotedIs(s.table, i.cmd.key, i.cmd.value, LeaseOf(s.store, i.cmd.key));
    var k := i.cmd.key;
    InvBounds(s);
    LiveCas(s, i);
    FlatCasGuard(s, k, i.cmd.expectedRev);
    FlattenCells(s);
    FlattenTable(s);
    if CasMatches(s.store, k, i.cmd.expectedRev) {
      FlatCas(s.store, Flatten(s).cells, k, s.rev + 1, i.cmd.value);
    }
    FlattenIs(Live(s, i), FlatStep(Flatten(s), Journaled(s, i)));
  }

  lemma FlatSimRevoke(s: State, i: Input)
    requires Inv(s) && i.cmd.typ.LeaseRevoke?
    ensures Flatten(Live(s, i)) == FlatStep(Flatten(s), Journaled(s, i))
  {
    var id, ks := i.cmd.leaseID, KeysOf(s.table, i.cmd.leaseID);
    hide Inv, Live, CellsOf, Flatten, TombstoneFrom, KeysOf;
    KeysOfElements(s.table, id);
    InvBounds(s);
    LiveRevoke(s, i);
    FlattenCells(s);
    FlattenTable(s);
    FlatTombstones(s.store, Flatten(s).cells, s.rev, ks);
    if id in s.table.leases {
      var cells, held := Flatten(s).cells, s.table.leases[id].keys;
      assert cells - held.Keys == map k | k in cells && k !in held :: cells[k];
      assert s.table.leases - {id} == map j | j in s.table.leases && j != id :: s.table.leases[j];
    }
    FlattenIs(Live(s, i), FlatStep(Flatten(s), Journaled(s, i)));
  }

  lemma FlatPrefixCells(s: State, prefix: string)
    ensures var f := Flatten(s);
            f.cells - Matching(s.store, prefix) == map k | k in f.cells && !HasPrefix(k, prefix) :: f.cells[k]
  {
    hide HasPrefix, Latest, LeaseOf;
  }

  lemma FlatSimPrefix(s: State, i: Input)
    requires Inv(s) && i.cmd.typ.DeletePrefix?
    ensures Flatten(Live(s, i)) == FlatStep(Flatten(s), Journaled(s, i))
  {
    hide Inv, Live, CellsOf, Flatten, TombstoneFrom, WithoutPrefix, DetachedAll, Matching;
    InvBounds(s);
    LivePrefix(s, i);
    PrefixDetaches(s, i.cmd.prefix);
    FlattenCells(s);
    FlattenTable(s);
    FlatPrefixCells(s, i.cmd.prefix);
    FlatTombstones(s.store, Flatten(s).cells, s.store.rev, DeletedKeys(s.store, i.cmd.prefix));
    FlattenIs(Live(s, i), FlatStep(Flatten(s), Journaled(s, i)));
  }

  /** One command on the versioned store is one command on the plain map. */
  lemma FlatSimulates(s: State, i: Input)
    requires Inv(s)
    ensures Flatten(Live(s, i)) == FlatStep(Flatten(s), Journaled(s, i))
  {
    hide Inv, Live, Flatten, FlatWrite;
    var t := i.cmd.typ;
    if t.Put? || (t.LeaseAttach? && i.cmd.leaseID > 0) {
      FlatSimWrite(s, i);
    } else if t.Delete? {
      FlatSimDelete(s, i);
    } else if t.CAS? {
      FlatSimCas(s, i);
    } else if t.LeaseRevoke? {
      FlatSimRevoke(s, i);
    } else if t.DeletePrefix? {
      FlatSimPrefix(s, i);
    } else {
      FlatSimOther(s, i);
    }
  }

  lemma GrantedIs(t: Table, ttl: int, expireAt: int)
    ensures var next := t.counter + 1;
            Granted(t, ttl, expireAt) == Table(t.leases + map[next := Lease(next, ttl, expireAt, map[])], next)
  {
    var next := t.counter + 1;
    assert Granted(t, ttl, expireAt).leases == t.leases + map[next := Lease(next, ttl, expireAt, map[])];
  }

  lemma InvTable(s: State)
    requires Inv(s)
    ensures TableOk(s.table)
  {
  }

  lemma FlatSimOther(s: State, i: Input)
    requires Inv(s)
    requires !IsWrite(i.cmd.typ) || (i.cmd.typ.LeaseAttach? && i.cmd.leaseID <= 0)
    requires !i.cmd.typ.LeaseRevoke?
    ensures Flatten(Live(s, i)) == FlatStep(Flatten(s), Journaled(s, i))
  {
    hide Granted, Renewed, CellsOf, Extended, StampedDeadline, Inv, TableOk, Flatten, IsLive, ApplyStore;
    InvTable(s);
    LiveOther(s, i);
    FlattenCells(s);
    FlattenTable(s);
    ExtendedIs(s.table, i.cmd.leaseID, EffectiveTtl(i.cmd.ttl), StampedDeadline(i.cmd, i.now));
    GrantedIs(s.table, EffectiveTtl(i.cmd.ttl), StampedDeadline(i.cmd, i.now));
    FlattenIs(Live(s, i), FlatStep(Flatten(s), Journaled(s, i)));
  }

  /** For every run, the newest versions and the leases are what a plain map gives
      when it is fed the journal. */
  lemma {:induction false} StoreRefinesMap(s: State, inputs: seq<Input>)
    requires Inv(s)
    ensures Flatten(LiveRun(s, inputs)) == FlatRun(Flatten(s), Journal(s, inputs))
  {
    hide Inv, Live, Flatten, FlatStep, Journaled;
    if inputs != [] {
      var n := |inputs| - 1;
      StoreRefinesMap(s, inputs[..n]);
      ReachableInv(s, inputs[..n]);
      FlatSimulates(LiveRun(s, inputs[..n]), inputs[n]);
      assert Journal(s, inputs)[..|Journal(s, inputs)| - 1] == Journal(s, inputs[..n]);
    }
  }

  /** The plain values a reader sees are those of the plain map. */
  lemma ViewIsFlat(s: State)
    ensures View(s.store) == map k | k in Flatten(s).cells :: Flatten(s).cells[k].value
  {
  }
}
