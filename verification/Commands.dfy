/** The commands that flow through the replicated log, and the two ways they are
    changed on the way to the state machine: the leader stamps an absolute
    deadline on lease commands, and a JSON hop turns every integer into a
    float64 and back. */
module Commands {

  datatype Option<+T> = None | Some(value: T)

  datatype CommandType =
    | Put
    | Get
    | Delete
    | LeaseGrant
    | LeaseRevoke
    | LeaseAttach
    | LeaseKeepAlive
    | CAS
    | DeletePrefix
    | GetPrefix
    | Unknown(code: int)

  datatype Command = Command(
    typ: CommandType,
    key: string,
    value: string,
    leaseID: int,
    ttl: int,
    expireAt: int,
    revision: int,
    tombstone: bool,
    expectedRev: int,
    prefix: string)

  /** The five types that are given a revision of their own. */
  predicate IsWrite(t: CommandType) {
    t.Put? || t.Delete? || t.CAS? || t.LeaseAttach? || t.DeletePrefix?
  }

  /** The two types that carry a deadline. */
  predicate SetsDeadline(t: CommandType) {
    t.LeaseGrant? || t.LeaseKeepAlive?
  }

  function DeleteCommand(key: string, revision: int): Command {
    Command(Delete, key, "", 0, 0, 0, revision, false, 0, "")
  }

  /** The command the cleanup loop submits for a lease it saw expire. */
  function ExpiryRevoke(id: int, expireAt: int): Command {
    Command(LeaseRevoke, "", "", id, 0, expireAt, 0, false, 0, "")
  }

  // ----- Deadlines -----

  const DEFAULT_TTL := 10
  const NANOS_PER_SECOND := 1_000_000_000
  const TWO_TO_THE_63 := 0x8000_0000_0000_0000
  const TWO_TO_THE_64 := 0x1_0000_0000_0000_0000

  function EffectiveTtl(ttl: int): (r: int)
    ensures r > 0
  {
    if ttl <= 0 then DEFAULT_TTL else ttl
  }

  /** Two's-complement wrap-around of a 64-bit signed integer. */
  function WrapInt64(n: int): (r: int)
    ensures -TWO_TO_THE_63 <= r < TWO_TO_THE_63
    ensures -TWO_TO_THE_63 <= n < TWO_TO_THE_63 ==> r == n
    ensures (n - r) % TWO_TO_THE_64 == 0
  {
    var m := n % TWO_TO_THE_64;
    if m < TWO_TO_THE_63 then m else m - TWO_TO_THE_64
  }

  function Deadline(now: int, ttl: int): int {
    WrapInt64(now + ttl * NANOS_PER_SECOND)
  }

  /** The deadline a lease command leaves the stamping step with. */
  function StampedDeadline(cmd: Command, now: int): int {
    if cmd.expireAt <= 0 then Deadline(now, EffectiveTtl(cmd.ttl)) else cmd.expireAt
  }

  /** What the leader's submit path makes of a command before it enters the log. */
  function Normalise(cmd: Command, now: int): Command {
    if SetsDeadline(cmd.typ)
    then cmd.(ttl := EffectiveTtl(cmd.ttl), expireAt := StampedDeadline(cmd, now))
    else cmd
  }

  /** A lease command that needs no clock any more. */
  predicate Stamped(cmd: Command) {
    SetsDeadline(cmd.typ) ==> cmd.expireAt > 0
  }

  predicate NeedsDeadline(cmd: Command) {
    SetsDeadline(cmd.typ) && cmd.expireAt <= 0
  }

  /** The deadline a command without one asks for, before any wrap-around. */
  function Requested(cmd: Command, now: int): int {
    now + EffectiveTtl(cmd.ttl) * NANOS_PER_SECOND
  }

  /** What a caller can check before submitting: the deadline is given, or the
      requested one fits 63 bits. */
  predicate DeadlineFits(cmd: Command, now: int) {
    NeedsDeadline(cmd) ==> 0 < Requested(cmd, now) < TWO_TO_THE_63
  }

  /** Stamping yields a usable deadline that is also the requested one exactly when the
      requested one fits; within one wrap of the clock it yields no usable deadline at
      all otherwise. */
  lemma NormaliseStamps(cmd: Command, now: int)
    ensures var c := Normalise(cmd, now);
            Stamped(c) && (NeedsDeadline(cmd) ==> c.expireAt == Requested(cmd, now)) <==> DeadlineFits(cmd, now)
    ensures var c := Normalise(cmd, now);
            && c.(ttl := cmd.ttl, expireAt := cmd.expireAt) == cmd
            && (SetsDeadline(cmd.typ) ==> c.ttl * NANOS_PER_SECOND == Requested(cmd, now) - now)
            && (!NeedsDeadline(cmd) ==> c.expireAt == cmd.expireAt)
            && (!SetsDeadline(cmd.typ) ==> c.ttl == cmd.ttl)
    ensures 0 <= now && (NeedsDeadline(cmd) ==> Requested(cmd, now) < TWO_TO_THE_64) ==>
              (Stamped(Normalise(cmd, now)) <==> DeadlineFits(cmd, now))
  {
    if NeedsDeadline(cmd) && 0 <= Requested(cmd, now) < TWO_TO_THE_64 {
      assert Requested(cmd, now) % TWO_TO_THE_64 == Requested(cmd, now);
    }
  }

  /** The requested deadline in seconds and nanoseconds; no time-to-live means ten
      seconds. */
  lemma RequestedSeconds(cmd: Command, now: int)
    ensures Requested(cmd, now) - now == 1_000_000_000 * if cmd.ttl > 0 then cmd.ttl else 10
  {
  }

  /** A grant for 9223372037 seconds: the deadline it asks for does not fit. */
  const ENDLESS_GRANT := Command(LeaseGrant, "", "", 0, 9_223_372_037, 0, 0, false, 0, "")

  lemma EndlessGrantHasNoDeadline()
    ensures Normalise(ENDLESS_GRANT, 0).expireAt < 0
    ensures !Stamped(Normalise(ENDLESS_GRANT, 0))
  {
    assert 9_223_372_037_000_000_000 % TWO_TO_THE_64 == 9_223_372_037_000_000_000;
  }

  // ----- Integers through JSON -----

  const TWO_TO_THE_53 := 0x20_0000_0000_0000

  /** A magnitude as a 53-bit significand, what is left below it, and the gap between
      neighbouring float64 values there. */
  datatype Scaled = Scaled(significand: nat, rest: nat, gap: nat)

  function Scale(n: nat): (s: Scaled)
    ensures s.rest < s.gap
    ensures n > 0 ==> s.rest < n
  {
    if n < TWO_TO_THE_53 then Scaled(n, 0, 1)
    else
      var s := Scale(n / 2);
      Scaled(s.significand, 2 * s.rest + n % 2, 2 * s.gap)
  }

  /** Round to the nearest float64, ties to an even significand. */
  function RoundNat(n: nat): nat {
    var s := Scale(n);
    if 2 * s.rest < s.gap || (2 * s.rest == s.gap && s.significand % 2 == 0)
    then n - s.rest
    else n - s.rest + s.gap
  }

  /** An int64 written as a JSON number and read back as int64(float64). */
  function ThroughFloat64(n: int): int {
    if n < 0 then 0 - RoundNat(-n) else RoundNat(n)
  }

  predicate FloatExact(n: int) {
    Scale(if n < 0 then -n else n).rest == 0
  }

  lemma {:induction false} ScaleMeans(n: nat)
    ensures var s := Scale(n);
            && n == s.significand * s.gap + s.rest && s.significand < TWO_TO_THE_53
            && (n >= TWO_TO_THE_53 ==> 2 * s.significand >= TWO_TO_THE_53)
  {
    if n >= TWO_TO_THE_53 {
      ScaleMeans(n / 2);
      var s := Scale(n / 2);
      assert s.significand * (2 * s.gap) == 2 * (s.significand * s.gap);
    }
  }

  lemma NextMultiple(q: nat, u: nat)
    ensures (q + 1) * u == q * u + u
  {
  }

  /** The rounded value is a whole number of gaps, and none is nearer. */
  lemma RoundIsNearest(n: nat, k: nat)
    ensures var s, r := Scale(n), RoundNat(n);
            && (r == s.significand * s.gap || r == (s.significand + 1) * s.gap)
            && (if r < n then n - r else r - n) <= if k * s.gap < n then n - k * s.gap else k * s.gap - n
  {
    hide Scale;
    var s := Scale(n);
    ScaleMeans(n);
    NextMultiple(s.significand, s.gap);
    if k <= s.significand {
      MultipleGrows(k, s.significand, s.gap);
    } else {
      MultipleGrows(s.significand + 1, k, s.gap);
    }
  }

  /** Of two float64 values that are equally near, the one with the even significand. */
  lemma TiesToEven(n: nat)
    requires 2 * Scale(n).rest == Scale(n).gap
    ensures exists m: nat :: m % 2 == 0 && RoundNat(n) == m * Scale(n).gap
  {
    hide Scale;
    var s := Scale(n);
    ScaleMeans(n);
    NextMultiple(s.significand, s.gap);
    var m := if s.significand % 2 == 0 then s.significand else s.significand + 1;
    assert RoundNat(n) == m * s.gap;
  }

  lemma MultipleGrows(a: nat, b: nat, u: nat)
    requires a <= b
    ensures a * u <= b * u
  {
  }

  /** An integer survives the JSON hop exactly when nothing is left below its 53-bit
      significand; every integer up to 2^53 does. */
  lemma FloatExactness(n: int)
    ensures ThroughFloat64(n) == n <==> FloatExact(n)
    ensures -TWO_TO_THE_53 <= n <= TWO_TO_THE_53 ==> FloatExact(n)
  {
    assert Scale(TWO_TO_THE_53).rest == 2 * Scale(TWO_TO_THE_53 / 2).rest;
  }

  function Power(e: nat): nat {
    if e == 0 then 1 else 2 * Power(e - 1)
  }

  lemma {:induction false} GapIsPower(n: nat) returns (e: nat)
    ensures Scale(n).gap == Power(e)
  {
    if n < TWO_TO_THE_53 {
      e := 0;
    } else {
      e := GapIsPower(n / 2);
      e := e + 1;
    }
  }

  lemma {:induction false} MultiplesAreExact(m: nat, e: nat)
    requires m <= TWO_TO_THE_53
    ensures Scale(m * Power(e)).rest == 0
  {
    var n := m * Power(e);
    if e == 0 {
      if n == TWO_TO_THE_53 { assert Scale(n).rest == 2 * Scale(n / 2).rest; }
    } else {
      var half := m * Power(e - 1);
      assert n == 2 * half && n / 2 == half && n % 2 == 0;
      MultiplesAreExact(m, e - 1);
    }
  }

  /** Rounding a float64 changes nothing. */
  lemma RoundedIsExact(n: int)
    ensures FloatExact(ThroughFloat64(n))
    ensures ThroughFloat64(ThroughFloat64(n)) == ThroughFloat64(n)
  {
    var k := if n < 0 then -n else n;
    var s := Scale(k);
    var e := GapIsPower(k);
    ScaleMeans(k);
    RoundIsNearest(k, 0);
    MultiplesAreExact(s.significand, e);
    MultiplesAreExact(s.significand + 1, e);
    FloatExactness(ThroughFloat64(n));
  }

  lemma ThroughFloat64Positive(n: int)
    requires n > 0
    ensures ThroughFloat64(n) > 0
  {
  }

  /** A command after one trip through JSON: integer fields become float64. */
  function ThroughJson(cmd: Command): Command {
    cmd.(leaseID := ThroughFloat64(cmd.leaseID),
         ttl := ThroughFloat64(cmd.ttl),
         expireAt := ThroughFloat64(cmd.expireAt),
         revision := ThroughFloat64(cmd.revision),
         expectedRev := ThroughFloat64(cmd.expectedRev))
  }

  predicate JsonExact(cmd: Command) {
    && FloatExact(cmd.leaseID)
    && FloatExact(cmd.ttl)
    && FloatExact(cmd.expireAt)
    && FloatExact(cmd.revision)
    && FloatExact(cmd.expectedRev)
  }

  lemma JsonExactness(cmd: Command)
    ensures ThroughJson(cmd) == cmd <==> JsonExact(cmd)
  {
    FloatExactness(cmd.leaseID);
    FloatExactness(cmd.ttl);
    FloatExactness(cmd.expireAt);
    FloatExactness(cmd.revision);
    FloatExactness(cmd.expectedRev);
  }

  lemma JsonHopIsIdempotent(cmd: Command)
    ensures ThroughJson(ThroughJson(cmd)) == ThroughJson(cmd)
  {
    hide ThroughFloat64;
    RoundedIsExact(cmd.leaseID);
    RoundedIsExact(cmd.ttl);
    RoundedIsExact(cmd.expireAt);
    RoundedIsExact(cmd.revision);
    RoundedIsExact(cmd.expectedRev);
  }
}
