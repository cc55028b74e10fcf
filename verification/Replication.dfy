/** Recovery and replication: replaying the journal gives the live state, and
    applying a log gives the same state on every replica. */
module Replication {
  import opened Commands
  import opened MvccStore
  import opened LeaseTable
  import opened StateMachine

  // ----- Replay -----

  lemma CatchUpIdle(s: State)
    requires Inv(s)
    ensures CatchUp(s) == s
  {
  }

  /** With its revision taken, the recovery copy of a command does what the apply
      loop's copy does. */
  lemma RecoveredEffectIsEffect(s: State, c: Command, now: int)
    requires Inv(s) && Stamped(c) && !c.typ.Unknown?
    requires IsWrite(c.typ) ==> c.revision == s.rev > s.store.rev
    ensures RecoveredEffect(s, c, now) == Some(Effect(s, c))
  {
    hide Inv, RevokeEffect, DetachedAll, Attached, DeletePrefixStore, CasMatches, SetLease;
    InvBounds(s);
    EffectKeepsInv(s, c);
    CatchUpIdle(Effect(s, c));
  }

  /** Replaying the record of one command reaches the state the command reached
      live, exactly when its type is known; otherwise recovery fails. */
  lemma RecoveredIsLive(s: State, i: Input, now: int)
    requires Inv(s) && InputOk(i)
    ensures Recovered(s, Journaled(s, i), now) == if i.cmd.typ.Unknown? then None else Some(Live(s, i))
  {
    hide Inv, Effect;
    InvBounds(s);
    BumpKeepsInv(s);
    if i.cmd.typ.Unknown? {
    } else {
      hide RecoveredEffect;
      RecoveredEffectIsEffect(if IsWrite(i.cmd.typ) then s.(rev := s.rev + 1) else s, Journaled(s, i), now);
    }
  }

  ghost predicate KnownTypes(inputs: seq<Input>) {
    forall j :: 0 <= j < |inputs| ==> !inputs[j].cmd.typ.Unknown?
  }

  /** Replaying the journal of any run reaches the live state of that run, at any
      recovery time, exactly when every journaled type is known; one unknown type
      makes recovery fail for good. */
  lemma {:induction false} ReplayIsLive(s: State, inputs: seq<Input>, now: int)
    requires Inv(s) && InputsOk(inputs)
    ensures Replay(s, Journal(s, inputs), now) == if KnownTypes(inputs) then Some(LiveRun(s, inputs)) else None
  {
    hide Inv, Live, Recovered, Journaled, InputOk;
    if inputs != [] {
      var n := |inputs| - 1;
      var before, last := inputs[..n], inputs[n];
      ReplayIsLive(s, before, now);
      ReachableInv(s, before);
      RecoveredIsLive(LiveRun(s, before), last, now);
      assert Journal(s, inputs)[..n] == Journal(s, before) by { JournalLength(s, before); JournalLength(s, inputs); }
      assert KnownTypes(inputs) <==> KnownTypes(before) && !last.cmd.typ.Unknown?;
    }
  }

  lemma {:induction false} JournalLength(s: State, inputs: seq<Input>)
    ensures |Journal(s, inputs)| == |inputs|
  {
    hide LiveRun, Journaled;
    if inputs != [] {
      JournalLength(s, inputs[..|inputs| - 1]);
    }
  }

  /** A lease command whose deadline wrapped below zero is journaled as it is, and
      recovery then takes a fresh deadline from its own clock: the granted lease is
      recovered exactly when the two clocks happen to give the same deadline. */
  lemma UnstampedGrantReplay(s: State, i: Input, now: int)
    requires Inv(s) && i.cmd.typ.LeaseGrant? && !InputOk(i)
    ensures Recovered(s, Journaled(s, i), now) == Some(Live(s, i)) <==>
              Deadline(now, EffectiveTtl(i.cmd.ttl)) == Deadline(i.now, EffectiveTtl(i.cmd.ttl))
  {
    var ttl, id := EffectiveTtl(i.cmd.ttl), s.table.counter + 1;
    assert Live(s, i).table.leases[id].expireAt == Deadline(i.now, ttl);
    assert Recovered(s, Journaled(s, i), now).value.table.leases[id].expireAt == Deadline(now, ttl);
  }

  /** Such a lease, granted at clock 0 and replayed at clock 1, comes back with another
      deadline. */
  lemma EndlessGrantIsNotRecovered()
    ensures var i := Input(ENDLESS_GRANT, 0);
            Recovered(INITIAL, Journaled(INITIAL, i), 1) != Some(Live(INITIAL, i))
  {
    EndlessGrantHasNoDeadline();
    InitialInv();
    UnstampedGrantReplay(INITIAL, Input(ENDLESS_GRANT, 0), 1);
    assert 9_223_372_037_000_000_001 % TWO_TO_THE_64 == 9_223_372_037_000_000_001;
  }

  // ----- Replicas -----

  /** The same commands, whatever the clocks of the two replicas say. */
  ghost predicate SameCommands(a: seq<Input>, b: seq<Input>) {
    |a| == |b| && forall j :: 0 <= j < |a| ==> a[j].cmd == b[j].cmd
  }

  ghost predicate AllStamped(inputs: seq<Input>) {
    forall j :: 0 <= j < |inputs| ==> Stamped(inputs[j].cmd)
  }

  lemma StampedIgnoresClock(s: State, cmd: Command, now: int, now': int)
    requires Stamped(cmd)
    ensures Live(s, Input(cmd, now)) == Live(s, Input(cmd, now'))
    ensures Journaled(s, Input(cmd, now)) == Journaled(s, Input(cmd, now'))
  {
  }

  /** Replicas that apply the same log of stamped commands reach the same state and
      write the same journal, whatever their clocks say. */
  lemma {:induction false} ReplicasAgree(s: State, a: seq<Input>, b: seq<Input>)
    requires SameCommands(a, b) && AllStamped(a)
    ensures LiveRun(s, a) == LiveRun(s, b)
    ensures Journal(s, a) == Journal(s, b)
  {
    hide Live, Journaled, Stamped;
    if a != [] {
      var n := |a| - 1;
      ReplicasAgree(s, a[..n], b[..n]);
      StampedIgnoresClock(LiveRun(s, a[..n]), a[n].cmd, a[n].now, b[n].now);
      assert a[n] == Input(a[n].cmd, a[n].now) && b[n] == Input(a[n].cmd, b[n].now);
    }
  }

  /** A follower receives each command through JSON. */
  ghost predicate Forwarded(a: seq<Input>, b: seq<Input>) {
    |a| == |b| && forall j :: 0 <= j < |a| ==> b[j].cmd == ThroughJson(a[j].cmd)
  }

  ghost predicate AllJsonExact(inputs: seq<Input>) {
    forall j :: 0 <= j < |inputs| ==> JsonExact(inputs[j].cmd)
  }

  /** A follower agrees with the leader on every run whose integers are float64. */
  lemma FollowerAgrees(s: State, a: seq<Input>, b: seq<Input>)
    requires Forwarded(a, b) && AllStamped(a) && AllJsonExact(a)
    ensures LiveRun(s, a) == LiveRun(s, b)
  {
    forall j | 0 <= j < |a| ensures b[j].cmd == a[j].cmd {
      JsonExactness(a[j].cmd);
    }
    ReplicasAgree(s, a, b);
  }

  /** One granted lease is the same on leader and follower exactly when its deadline
      is a float64: nanosecond deadlines are past 2^53, so most are not. */
  lemma FollowerGrantDeadline(s: State, cmd: Command, now: int)
    requires cmd.typ.LeaseGrant? && cmd.expireAt > 0 && FloatExact(cmd.ttl)
    ensures Live(s, Input(ThroughJson(cmd), now)) == Live(s, Input(cmd, now)) <==> FloatExact(cmd.expireAt)
  {
    FloatExactness(cmd.ttl);
    FloatExactness(cmd.expireAt);
    ThroughFloat64Positive(cmd.expireAt);
    var id := s.table.counter + 1;
    assert Live(s, Input(cmd, now)).table.leases[id].expireAt == cmd.expireAt;
    assert Live(s, Input(ThroughJson(cmd), now)).table.leases[id].expireAt == ThroughFloat64(cmd.expireAt);
  }

  /** A deadline in the year 2023 that does not survive. */
  lemma SampleDeadlineIsRounded()
    ensures ThroughFloat64(1_700_000_000_000_000_001) == 1_700_000_000_000_000_000
  {
    hide Scale;
    ScaleStep(6_640_625_000_000_000, 0);
    ScaleStep(13_281_250_000_000_000, 0);
    ScaleStep(26_562_500_000_000_000, 0);
    ScaleStep(53_125_000_000_000_000, 0);
    ScaleStep(106_250_000_000_000_000, 0);
    ScaleStep(212_500_000_000_000_000, 0);
    ScaleStep(425_000_000_000_000_000, 0);
    ScaleStep(850_000_000_000_000_000, 1);
  }

  lemma ScaleStep(n: nat, bit: nat)
    requires bit < 2
    ensures n < TWO_TO_THE_53 ==> Scale(n) == Scaled(n, 0, 1)
    ensures var s := Scale(n);
            2 * n + bit >= TWO_TO_THE_53 ==> Scale(2 * n + bit) == Scaled(s.significand, 2 * s.rest + bit, 2 * s.gap)
  {
    assert (2 * n + bit) / 2 == n && (2 * n + bit) % 2 == bit;
  }
}
