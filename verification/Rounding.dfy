/** What the JSON hop does to a whole run. Deadlines are rounded to float64, and a
    replica or a recovery that works on rounded commands reaches the same state with
    some deadlines rounded, as long as every expiry revoke still hits or misses the
    lease it hit or missed before. */
module Rounding {
  import opened Commands
  import opened MvccStore
  import opened LeaseTable
  import opened StateMachine
  import opened Replication
  import opened Histories
  import opened Wal

  /** The command as the hop leaves it, its deadline stamped before. */
  function Hopped(i: Input): Input {
    var expireAt := if SetsDeadline(i.cmd.typ) then StampedDeadline(i.cmd, i.now) else i.cmd.expireAt;
    Input(i.cmd.(expireAt := ThroughFloat64(expireAt)), i.now)
  }

  function HoppedAll(inputs: seq<Input>): seq<Input> {
    seq(|inputs|, j requires 0 <= j < |inputs| => Hopped(inputs[j]))
  }

  /** Lease ids, times-to-live and revisions are small enough for float64. */
  predicate OthersExact(c: Command) {
    FloatExact(c.leaseID) && FloatExact(c.ttl) && FloatExact(c.revision) && FloatExact(c.expectedRev)
  }

  /** The same leases, those in ids with a rounded deadline. */
  ghost function RoundTable(t: Table, ids: set<int>): Table {
    t.(leases := map id | id in t.leases ::
         if id in ids then t.leases[id].(expireAt := ThroughFloat64(t.leases[id].expireAt)) else t.leases[id])
  }

  ghost function RoundState(s: State, ids: set<int>): State {
    s.(table := RoundTable(s.table, ids))
  }

  /** The lease whose deadline the command sets. */
  function Sets(s: State, cmd: Command): set<int> {
    if cmd.typ.LeaseGrant? then {s.table.counter + 1} else if cmd.typ.LeaseKeepAlive? then {cmd.leaseID} else {}
  }

  /** An expiry revoke hits the lease with the rounded numbers exactly when it hits it
      with the original ones. */
  ghost predicate Faithful(s: State, ids: set<int>, cmd: Command) {
    cmd.typ.LeaseRevoke? && cmd.leaseID > 0 && cmd.expireAt > 0 && cmd.leaseID in s.table.leases ==>
      var d := s.table.leases[cmd.leaseID].expireAt;
      d == cmd.expireAt <==> (if cmd.leaseID in ids then ThroughFloat64(d) else d) == ThroughFloat64(cmd.expireAt)
  }

  // ----- Rounding commutes with what commands do to the table -----

  lemma RoundAttached(t: Table, ids: set<int>, id: int, key: string, value: string)
    ensures Attached(RoundTable(t, ids), id, key, value) == RoundTable(Attached(t, id, key, value), ids)
  {
    hide ThroughFloat64;
    assert Attached(RoundTable(t, ids), id, key, value).leases ==
             RoundTable(Attached(t, id, key, value), ids).leases;
  }

  lemma RoundDetached(t: Table, ids: set<int>, ks: set<string>)
    ensures DetachedAll(RoundTable(t, ids), ks) == RoundTable(DetachedAll(t, ks), ids)
  {
    hide ThroughFloat64;
    assert DetachedAll(RoundTable(t, ids), ks).leases == RoundTable(DetachedAll(t, ks), ids).leases;
  }

  lemma RoundDropped(t: Table, ids: set<int>, id: int)
    ensures Dropped(RoundTable(t, ids), id) == RoundTable(Dropped(t, id), ids)
    ensures KeysOf(RoundTable(t, ids), id) == KeysOf(t, id)
  {
    hide ThroughFloat64;
    assert Dropped(RoundTable(t, ids), id).leases == RoundTable(Dropped(t, id), ids).leases;
  }

  lemma RoundGranted(t: Table, ids: set<int>, ttl: int, expireAt: int)
    requires t.counter + 1 !in t.leases
    ensures Granted(RoundTable(t, ids), ttl, ThroughFloat64(expireAt)) ==
              RoundTable(Granted(t, ttl, expireAt), ids + {t.counter + 1})
  {
    hide ThroughFloat64;
    assert Granted(RoundTable(t, ids), ttl, ThroughFloat64(expireAt)).leases ==
             RoundTable(Granted(t, ttl, expireAt), ids + {t.counter + 1}).leases;
  }

  lemma RoundRenewed(t: Table, ids: set<int>, id: int, ttl: int, expireAt: int)
    ensures Renewed(RoundTable(t, ids), id, ttl, ThroughFloat64(expireAt)) ==
              RoundTable(Renewed(t, id, ttl, expireAt), ids + {id})
  {
    hide ThroughFloat64;
    assert Renewed(RoundTable(t, ids), id, ttl, ThroughFloat64(expireAt)).leases ==
             RoundTable(Renewed(t, id, ttl, expireAt), ids + {id}).leases;
  }

  lemma RoundNone(s: State)
    ensures RoundState(s, {}) == s
  {
    assert RoundTable(s.table, {}).leases == s.table.leases;
  }

  // ----- One command -----

  lemma NonPositive(n: int)
    ensures ThroughFloat64(n) > 0 <==> n > 0
  {
    if n > 0 { ThroughFloat64Positive(n); }
  }

  lemma RevokeRounds(s: State, ids: set<int>, i: Input)
    requires i.cmd.typ.LeaseRevoke?
    ensures Live(RoundState(s, ids), Hopped(i)) == RoundState(Live(s, i), ids) <==> Faithful(s, ids, i.cmd)
  {
    var r, i', id, e := RoundState(s, ids), Hopped(i), i.cmd.leaseID, i.cmd.expireAt;
    LiveRevoke(s, i);
    LiveRevoke(r, i');
    NonPositive(e);
    RoundDropped(s.table, ids, id);
    hide ThroughFloat64, Live, KeysOf, TombstoneFrom;
    if id > 0 && id in s.table.leases {
      assert (RevokeApplies(s.table, id, e) <==> RevokeApplies(r.table, id, ThroughFloat64(e))) <==> Faithful(s, ids, i.cmd);
      assert id !in RoundState(RevokeEffect(s, id), ids).table.leases && id in r.table.leases;
      assert RevokeEffect(r, id) == RoundState(RevokeEffect(s, id), ids);
    }
  }

  lemma WriteRounds(s: State, ids: set<int>, i: Input)
    requires i.cmd.typ.Put? || (i.cmd.typ.LeaseAttach? && i.cmd.leaseID > 0)
    ensures Live(RoundState(s, ids), Hopped(i)) == RoundState(Live(s, i), ids)
  {
    var c := i.cmd;
    LiveWrite(s, i);
    LiveWrite(RoundState(s, ids), Hopped(i));
    RoundDetached(s.table, ids, {c.key});
    RoundAttached(Detached(s.table, c.key), ids, c.leaseID, c.key, c.value);
    hide ThroughFloat64, Live, Written, RoundTable, Attached, DetachedAll;
  }

  lemma DeleteRounds(s: State, ids: set<int>, i: Input)
    requires i.cmd.typ.Delete?
    ensures Live(RoundState(s, ids), Hopped(i)) == RoundState(Live(s, i), ids)
  {
    LiveDelete(s, i);
    LiveDelete(RoundState(s, ids), Hopped(i));
    RoundDetached(s.table, ids, {i.cmd.key});
  }

  lemma CasRounds(s: State, ids: set<int>, i: Input)
    requires i.cmd.typ.CAS?
    ensures Live(RoundState(s, ids), Hopped(i)) == RoundState(Live(s, i), ids)
  {
    LiveCas(s, i);
    LiveCas(RoundState(s, ids), Hopped(i));
    RoundAttached(s.table, ids, LeaseOf(s.store, i.cmd.key), i.cmd.key, i.cmd.value);
    hide ThroughFloat64, Live, AddVersion, RoundTable, Attached;
  }

  lemma PrefixRounds(s: State, ids: set<int>, i: Input)
    requires i.cmd.typ.DeletePrefix?
    ensures Live(RoundState(s, ids), Hopped(i)) == RoundState(Live(s, i), ids)
  {
    hide ThroughFloat64, DeletePrefixStore, Matching, RoundTable, DetachedAll;
    RoundDetached(s.table, ids, Matching(s.store, i.cmd.prefix));
  }

  lemma GrantRounds(s: State, ids: set<int>, i: Input)
    requires TableOk(s.table) && InputOk(i) && SetsDeadline(i.cmd.typ)
    ensures Live(RoundState(s, ids), Hopped(i)) == RoundState(Live(s, i), ids + Sets(s, i.cmd))
  {
    var ttl, e := EffectiveTtl(i.cmd.ttl), StampedDeadline(i.cmd, i.now);
    NonPositive(e);
    RoundGranted(s.table, ids, ttl, e);
    RoundRenewed(s.table, ids, i.cmd.leaseID, ttl, e);
    hide ThroughFloat64, RoundTable, Granted, Renewed, EffectiveTtl, Deadline;
  }

  /** One command on the rounded state does the rounded thing, exactly when it is
      faithful; every command that is not an expiry revoke is. */
  lemma LiveRoundsIff(s: State, ids: set<int>, i: Input)
    requires Inv(s) && InputOk(i)
    ensures Live(RoundState(s, ids), Hopped(i)) == RoundState(Live(s, i), ids + Sets(s, i.cmd)) <==>
              Faithful(s, ids, i.cmd)
  {
    assert TableOk(s.table);
    hide Inv, InputOk, ThroughFloat64, RoundState, StampedDeadline;
    assert !SetsDeadline(i.cmd.typ) ==> ids + Sets(s, i.cmd) == ids;
    match i.cmd.typ
    case Put => WriteRounds(s, ids, i);
    case Delete => DeleteRounds(s, ids, i);
    case CAS => CasRounds(s, ids, i);
    case DeletePrefix => PrefixRounds(s, ids, i);
    case LeaseRevoke => RevokeRounds(s, ids, i);
    case LeaseGrant => GrantRounds(s, ids, i);
    case LeaseKeepAlive => GrantRounds(s, ids, i);
    case LeaseAttach =>
      if i.cmd.leaseID > 0 { WriteRounds(s, ids, i); } else { IdleRounds(s, ids, i); }
    case _ => IdleRounds(s, ids, i);
  }

  lemma IdleRounds(s: State, ids: set<int>, i: Input)
    requires i.cmd.typ.Get? || i.cmd.typ.GetPrefix? || i.cmd.typ.Unknown? || (i.cmd.typ.LeaseAttach? && i.cmd.leaseID <= 0)
    ensures Live(RoundState(s, ids), Hopped(i)) == RoundState(Live(s, i), ids)
  {
    hide ThroughFloat64;
  }

  /** The record the hop makes of a journal record is the record of the hopped command. */
  lemma HoppedRecord(s: State, ids: set<int>, i: Input)
    requires InputOk(i) && OthersExact(Journaled(s, i))
    ensures Journaled(RoundState(s, ids), Hopped(i)) == ThroughJson(Journaled(s, i))
    ensures InputOk(Hopped(i))
  {
    var c := Journaled(s, i);
    FloatExactness(c.leaseID);
    FloatExactness(c.ttl);
    FloatExactness(c.revision);
    FloatExactness(c.expectedRev);
    NonPositive(c.expireAt);
    hide ThroughFloat64, FloatExact, Deadline;
  }

  // ----- Runs -----

  /** The leases whose deadline the run has set. */
  ghost function Touched(s: State, inputs: seq<Input>): set<int> {
    if inputs == [] then {}
    else
      var n := |inputs| - 1;
      Touched(s, inputs[..n]) + Sets(LiveRun(s, inputs[..n]), inputs[n].cmd)
  }

  ghost predicate FaithfulAt(s: State, inputs: seq<Input>, j: nat)
    requires j < |inputs|
  {
    var t := LiveRun(s, inputs[..j]);
    Faithful(t, Touched(s, inputs[..j]), inputs[j].cmd) && OthersExact(Journaled(t, inputs[j]))
  }

  ghost predicate AllFaithful(s: State, inputs: seq<Input>) {
    forall j :: 0 <= j < |inputs| ==> FaithfulAt(s, inputs, j)
  }

  lemma FaithfulPrefix(s: State, inputs: seq<Input>, n: nat)
    requires AllFaithful(s, inputs) && n <= |inputs|
    ensures AllFaithful(s, inputs[..n])
  {
    forall j | 0 <= j < n ensures FaithfulAt(s, inputs[..n], j) {
      assert FaithfulAt(s, inputs, j) && inputs[..n][..j] == inputs[..j];
    }
  }

  /** A run of the hopped commands reaches the state of the original run with the
      deadlines set in it rounded, and journals what the hop makes of its journal. */
  lemma {:induction false} RunRounds(s: State, inputs: seq<Input>)
    requires Inv(s) && InputsOk(inputs) && AllFaithful(s, inputs)
    ensures LiveRun(s, HoppedAll(inputs)) == RoundState(LiveRun(s, inputs), Touched(s, inputs))
    ensures Journal(s, HoppedAll(inputs)) == AllThroughJson(Journal(s, inputs))
    ensures InputsOk(HoppedAll(inputs))
  {
    hide Inv, InputOk, Live, Journaled, Hopped, Faithful, RoundState, OthersExact, ThroughJson;
    if inputs == [] {
      RoundNone(s);
      assert HoppedAll(inputs) == [] && AllThroughJson([]) == [];
    } else {
      var n := |inputs| - 1;
      var before, last := inputs[..n], inputs[n];
      var t, ids := LiveRun(s, before), Touched(s, before);
      FaithfulPrefix(s, inputs, n);
      RunRounds(s, before);
      ReachableInv(s, before);
      assert FaithfulAt(s, inputs, n);
      LiveRoundsIff(t, ids, last);
      HoppedRecord(t, ids, last);
      assert HoppedAll(inputs)[..n] == HoppedAll(before) && HoppedAll(inputs)[n] == Hopped(last);
      JournalLength(s, before);
      HopConcat(Journal(s, before), Journaled(t, last));
    }
  }

  lemma HopConcat(cs: seq<Command>, c: Command)
    ensures AllThroughJson(cs + [c]) == AllThroughJson(cs) + [ThroughJson(c)]
  {
    hide ThroughJson;
  }

  /** Replaying a journal through JSON reaches the live state with the deadlines set in
      the journal rounded. */
  lemma ReplayRounds(s: State, inputs: seq<Input>, now: int)
    requires Inv(s) && InputsOk(inputs) && AllFaithful(s, inputs)
    ensures Replay(s, AllThroughJson(Journal(s, inputs)), now) ==
              if KnownTypes(inputs) then Some(RoundState(LiveRun(s, inputs), Touched(s, inputs))) else None
  {
    RunRounds(s, inputs);
    HoppedTypes(inputs);
    hide Inv, InputsOk, KnownTypes, AllFaithful, LiveRun, Journal, Replay;
    ReplayIsLive(s, HoppedAll(inputs), now);
  }

  lemma HoppedTypes(inputs: seq<Input>)
    ensures KnownTypes(HoppedAll(inputs)) <==> KnownTypes(inputs)
  {
    hide ThroughFloat64, StampedDeadline;
    forall j | 0 <= j < |inputs| ensures HoppedAll(inputs)[j].cmd.typ == inputs[j].cmd.typ { }
    if KnownTypes(HoppedAll(inputs)) {
      forall j | 0 <= j < |inputs| ensures !inputs[j].cmd.typ.Unknown? {
        assert !HoppedAll(inputs)[j].cmd.typ.Unknown?;
      }
    }
  }

  // ----- Runs whose integers all survive -----

  /** A command changes no deadline but the one it sets. */
  lemma DeadlineStep(s: State, i: Input, id: int)
    requires id in Live(s, i).table.leases
    ensures var d := Live(s, i).table.leases[id].expireAt;
            || (id in Sets(s, i.cmd) && d == Journaled(s, i).expireAt)
            || (id in s.table.leases && d == s.table.leases[id].expireAt)
  {
    hide ApplyStore, TombstoneFrom, DeletePrefixStore, Matching, CasMatches, LeaseOf, KeysOf, StampedDeadline;
  }

  ghost predicate JournalExact(s: State, inputs: seq<Input>) {
    forall j :: 0 <= j < |Journal(s, inputs)| ==> JsonExact(Journal(s, inputs)[j])
  }

  lemma JournalPrefix(s: State, inputs: seq<Input>)
    requires inputs != []
    ensures var n := |inputs| - 1;
            && |Journal(s, inputs)| == n + 1 && |Journal(s, inputs[..n])| == n
            && Journal(s, inputs)[..n] == Journal(s, inputs[..n])
            && Journal(s, inputs)[n] == Journaled(LiveRun(s, inputs[..n]), inputs[n])
            && (JournalExact(s, inputs) ==>
                  JournalExact(s, inputs[..n]) && JsonExact(Journaled(LiveRun(s, inputs[..n]), inputs[n])))
  {
    hide Journaled, LiveRun, JsonExact;
    var n := |inputs| - 1;
    JournalLength(s, inputs);
    JournalLength(s, inputs[..n]);
    forall j | 0 <= j < n ensures Journal(s, inputs)[j] == Journal(s, inputs[..n])[j] { }
  }

  lemma {:induction false} TouchedExact(s: State, inputs: seq<Input>, id: int)
    requires JournalExact(s, inputs) && id in Touched(s, inputs) && id in LiveRun(s, inputs).table.leases
    ensures FloatExact(LiveRun(s, inputs).table.leases[id].expireAt)
  {
    hide JournalExact, Live, Journaled, FloatExact;
    var n := |inputs| - 1;
    var t := LiveRun(s, inputs[..n]);
    JournalPrefix(s, inputs);
    DeadlineStep(t, inputs[n], id);
    if id in Sets(t, inputs[n].cmd) {
      SetsKept(t, inputs[n], id);
    } else if id in t.table.leases && id in Touched(s, inputs[..n]) {
      TouchedExact(s, inputs[..n], id);
    }
  }

  /** Where a command is said to set a deadline, it does. */
  lemma SetsKept(s: State, i: Input, id: int)
    requires id in Sets(s, i.cmd) && id in Live(s, i).table.leases
    ensures Live(s, i).table.leases[id].expireAt == Journaled(s, i).expireAt
  {
    hide StampedDeadline;
  }

  lemma ExactIsFaithfulAt(s: State, inputs: seq<Input>)
    requires inputs != [] && JournalExact(s, inputs)
    ensures FaithfulAt(s, inputs, |inputs| - 1)
  {
    var n := |inputs| - 1;
    var t, c := LiveRun(s, inputs[..n]), inputs[n].cmd;
    JournalPrefix(s, inputs);
    if c.typ.LeaseRevoke? && c.leaseID > 0 && c.expireAt > 0 && c.leaseID in t.table.leases {
      FloatExactness(c.expireAt);
      FloatExactness(t.table.leases[c.leaseID].expireAt);
      hide JournalExact, FloatExact, ThroughFloat64, LiveRun;
      if c.leaseID in Touched(s, inputs[..n]) {
        TouchedExact(s, inputs[..n], c.leaseID);
      }
    }
  }

  /** If every journaled integer is a float64, the run is faithful and rounding changes
      nothing. */
  lemma {:induction false} ExactIsFaithful(s: State, inputs: seq<Input>)
    requires JournalExact(s, inputs)
    ensures AllFaithful(s, inputs)
    ensures RoundState(LiveRun(s, inputs), Touched(s, inputs)) == LiveRun(s, inputs)
  {
    var t := LiveRun(s, inputs);
    forall id | id in t.table.leases && id in Touched(s, inputs)
      ensures ThroughFloat64(t.table.leases[id].expireAt) == t.table.leases[id].expireAt
    {
      TouchedExact(s, inputs, id);
      FloatExactness(t.table.leases[id].expireAt);
    }
    assert RoundTable(t.table, Touched(s, inputs)).leases == t.table.leases;
    hide RoundState, LiveRun, Touched;
    if inputs != [] {
      var n := |inputs| - 1;
      JournalPrefix(s, inputs);
      ExactIsFaithful(s, inputs[..n]);
      ExactIsFaithfulAt(s, inputs);
      forall j | 0 <= j < |inputs| ensures FaithfulAt(s, inputs, j) {
        if j < n { assert FaithfulAt(s, inputs[..n], j) && inputs[..n][..j] == inputs[..j]; }
      }
    }
  }

  ghost predicate CommandsExact(inputs: seq<Input>) {
    forall j :: 0 <= j < |inputs| ==> OthersExact(inputs[j].cmd)
  }

  lemma ForwardedIsHopped(i: Input)
    requires Stamped(i.cmd) && OthersExact(i.cmd)
    ensures Hopped(i).cmd == ThroughJson(i.cmd) && Stamped(Hopped(i).cmd)
  {
    FloatExactness(i.cmd.leaseID);
    FloatExactness(i.cmd.ttl);
    FloatExactness(i.cmd.revision);
    FloatExactness(i.cmd.expectedRev);
    NonPositive(i.cmd.expireAt);
    hide ThroughFloat64, FloatExact;
  }

  /** A follower that decodes the leader's commands from JSON has the leader's state
      with the deadlines set in the run rounded. */
  lemma FollowerRounds(s: State, a: seq<Input>, b: seq<Input>)
    requires Inv(s) && Forwarded(a, b) && AllStamped(a) && CommandsExact(a) && AllFaithful(s, a)
    ensures LiveRun(s, b) == RoundState(LiveRun(s, a), Touched(s, a))
  {
    hide Inv, AllFaithful, ThroughJson, OthersExact, Hopped, LiveRun, RoundState;
    forall j | 0 <= j < |a| ensures HoppedAll(a)[j].cmd == b[j].cmd && Stamped(HoppedAll(a)[j].cmd) && InputOk(a[j]) {
      ForwardedIsHopped(a[j]);
    }
    RunRounds(s, a);
    ReplicasAgree(s, HoppedAll(a), b);
  }
}
