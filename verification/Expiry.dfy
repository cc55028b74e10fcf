/** Expiry under interleaving: the cleanup loop sees a lease expire, its revoke
    travels through the log, and renewals may be applied before it arrives. */
module Expiry {
  import opened Commands
  import opened LeaseTable
  import opened StateMachine
  import opened Histories

  /** The state machine, the clock, and the expiry revokes not yet applied. */
  datatype World = World(s: State, clock: int, inFlight: set<Command>)

  datatype Event =
    | Tick(elapsed: nat)
    | Sweep(id: int)
    | Expire(revoke: Command)
    | Client(cmd: Command)

  /** A sweep submits a revoke for a lease whose deadline it has seen pass; an expiry
      applies any of the submitted revokes, in any order and as often as it comes. */
  ghost function Step(w: World, e: Event): World {
    match e
    case Tick(elapsed) => w.(clock := w.clock + elapsed)
    case Sweep(id) =>
      if id in w.s.table.leases && w.s.table.leases[id].expireAt <= w.clock
      then w.(inFlight := w.inFlight + {ExpiryRevoke(id, w.s.table.leases[id].expireAt)})
      else w
    case Expire(revoke) =>
      if revoke in w.inFlight then w.(s := Live(w.s, Input(revoke, w.clock))) else w
    case Client(cmd) => w.(s := Live(w.s, Input(cmd, w.clock)))
  }

  ghost function Run(w: World, events: seq<Event>): World {
    if events == [] then w else Step(Run(w, events[..|events| - 1]), events[|events| - 1])
  }

  /** Client commands carry, or get, a positive deadline. */
  ghost predicate EventsOk(w: World, events: seq<Event>) {
    forall j :: 0 <= j < |events| && events[j].Client? ==>
      InputOk(Input(events[j].cmd, Run(w, events[..j]).clock))
  }

  ghost predicate WorldOk(w: World) {
    && Inv(w.s)
    && Positive(w.s.table)
    && forall c :: c in w.inFlight ==> c == ExpiryRevoke(c.leaseID, c.expireAt) && 0 < c.expireAt <= w.clock
  }

  lemma LivePositive(s: State, i: Input)
    requires Positive(s.table) && InputOk(i)
    ensures Positive(Live(s, i).table)
  {
    hide Effect, Positive;
    EffectPositive(if IsWrite(i.cmd.typ) then s.(rev := s.rev + 1) else s, Journaled(s, i));
  }

  lemma StepOk(w: World, e: Event)
    requires WorldOk(w)
    requires e.Client? ==> InputOk(Input(e.cmd, w.clock))
    ensures WorldOk(Step(w, e))
  {
    hide Inv, Live;
    match e
    case Expire(revoke) =>
      if revoke in w.inFlight {
        LiveKeepsInv(w.s, Input(revoke, w.clock));
        LivePositive(w.s, Input(revoke, w.clock));
      }
    case Client(cmd) =>
      LiveKeepsInv(w.s, Input(cmd, w.clock));
      LivePositive(w.s, Input(cmd, w.clock));
    case _ =>
  }

  lemma {:induction false} RunOk(w: World, events: seq<Event>)
    requires WorldOk(w) && EventsOk(w, events)
    ensures WorldOk(Run(w, events))
  {
    hide WorldOk, Step, InputOk;
    if events != [] {
      var n := |events| - 1;
      assert forall j :: 0 <= j < n ==> events[..n][..j] == events[..j];
      RunOk(w, events[..n]);
      StepOk(Run(w, events[..n]), events[n]);
    }
  }

  /** In every interleaving, applying an in-flight expiry revoke removes a lease only
      if the deadline the lease has at that moment has passed. */
  lemma ExpiryIsSafe(w: World, events: seq<Event>, revoke: Command, id: int)
    requires WorldOk(w) && EventsOk(w, events)
    requires var v := Run(w, events);
             revoke in v.inFlight && id in v.s.table.leases && id !in Step(v, Expire(revoke)).s.table.leases
    ensures var v := Run(w, events);
            id == revoke.leaseID && v.s.table.leases[id].expireAt == revoke.expireAt <= v.clock
  {
    hide Run, EventsOk, Inv, Live;
    RunOk(w, events);
    var v := Run(w, events);
    LiveRevoke(v.s, Input(revoke, v.clock));
  }

  /** Why deadlines must be positive: a revoke sent for a deadline d spares a lease
      that was renewed meanwhile exactly when d is positive. */
  lemma StaleRevokeSparesIff(s: State, id: int, d: int, now: int)
    requires Inv(s) && id in s.table.leases && s.table.leases[id].expireAt != d
    ensures id in Live(s, Input(ExpiryRevoke(id, d), now)).table.leases <==> d > 0
  {
    hide Inv, Live;
    InvBounds(s);
    LiveRevoke(s, Input(ExpiryRevoke(id, d), now));
  }
}
