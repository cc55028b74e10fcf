/** Crash-safe checkpointing: a snapshot file that remembers the identity and the
    length of the journal it was taken against, a journal that is replaced by a new
    file when it is cleared, and a process that may die between any two steps. */
module Checkpoint {
  import opened Commands
  import opened LeaseTable
  import opened StateMachine
  import opened Replication
  import opened Rounding
  import opened Server
  import opened Wal

  datatype SnapshotFile = SnapshotFile(data: ServerSnapshot, walID: int, offset: int)

  datatype Disk = Disk(snap: Option<SnapshotFile>, walID: int, bytes: seq<byte>)

  // ----- Startup -----

  ghost function ReplayFrom(codec: Codec, s: State, bytes: seq<byte>, offset: int, now: int): Option<State> {
    var records := ReadFrom(codec, bytes, offset);
    if records.None? then None else Replay(s, records.value, now)
  }

  /** A snapshot that names the present journal file covers it up to its offset; one
      that names another file was followed by a clear, and the whole file is newer. */
  ghost function RecoverDisk(codec: Codec, disk: Disk, now: int): Option<State> {
    match disk.snap
    case None => ReplayFrom(codec, INITIAL, disk.bytes, 0, now)
    case Some(file) =>
      var restored := RestoreState(file.data);
      if restored.None? then None
      else ReplayFrom(codec, restored.value, disk.bytes, if file.walID == disk.walID then file.offset else 0, now)
  }

  // ----- Runs -----

  datatype Phase = Running | Saved | Failed | Down

  /** The disk, the memory, and what an observer has recorded: the commands applied in
      memory so far, one that reached the journal but not memory, how many commands
      precede the journal file and how many the snapshot covers, the records written to
      the journal file and the unfinished line at its end. */
  datatype Process = Process(
    disk: Disk,
    mem: State,
    phase: Phase,
    done: seq<Input>,
    pending: Option<Input>,
    walStart: nat,
    snapAt: nat,
    written: seq<Command>,
    torn: seq<byte>)

  datatype Event =
    | Apply(i: Input)
    | WriteStops(i: Input, n: nat)
    | Save(snap: ServerSnapshot)
    | Clear(walID: int)
    | Crash
    | Recover(now: int)

  function Fresh(walID: int): Process {
    Process(Disk(None, walID, []), INITIAL, Running, [], None, 0, 0, [], [])
  }

  function AllInputs(p: Process): seq<Input> {
    p.done + if p.pending.Some? then [p.pending.value] else []
  }

  /** How many commands the newest snapshot covers. */
  function Covered(p: Process): nat {
    if p.disk.snap.Some? then p.snapAt else 0
  }

  /** The commands the snapshot covers. */
  function Safe(p: Process): seq<Input> {
    if Covered(p) <= |AllInputs(p)| then AllInputs(p)[..Covered(p)] else AllInputs(p)
  }

  /** The commands the snapshot does not cover. */
  function Uncovered(p: Process): seq<Input> {
    if Covered(p) <= |AllInputs(p)| then AllInputs(p)[Covered(p)..] else []
  }

  /** The history as a restart knows it: what it reads from the journal has taken the
      JSON hop. */
  function Replayed(p: Process): seq<Input> {
    Safe(p) + HoppedAll(Uncovered(p))
  }

  /** One step. A write that stops after n bytes leaves the server refusing commands;
      a completed one leaves a command journaled and unapplied. Saving and clearing
      happen at shutdown, in that order. */
  ghost function Step(codec: Codec, p: Process, e: Event): Process {
    match e
    case Apply(i) =>
      if p.phase.Running?
      then p.(disk := p.disk.(bytes := p.disk.bytes + Line(codec, Journaled(p.mem, i))),
              mem := Live(p.mem, i),
              done := p.done + [i],
              written := p.written + [Journaled(p.mem, i)])
      else p
    case WriteStops(i, n) =>
      var line := Line(codec, Journaled(p.mem, i));
      if p.phase.Running? && n <= |line|
      then p.(disk := p.disk.(bytes := p.disk.bytes + line[..n]),
              phase := Failed,
              pending := if n == |line| then Some(i) else None,
              written := if n == |line| then p.written + [Journaled(p.mem, i)] else p.written,
              torn := if n == |line| then p.torn else p.torn + line[..n])
      else p
    case Save(snap) =>
      if p.phase.Running? && IsSnapshotOf(snap, p.mem)
      then p.(disk := p.disk.(snap := Some(SnapshotFile(snap, p.disk.walID, |p.disk.bytes|))),
              phase := Saved,
              snapAt := |p.done|)
      else p
    case Clear(walID) =>
      if p.phase.Saved? && walID != p.disk.walID
      then p.(disk := p.disk.(walID := walID, bytes := []), phase := Down, walStart := |p.done|, written := [], torn := [])
      else p
    case Crash => p.(phase := Down)
    case Recover(now) =>
      if p.phase.Down? && RecoverDisk(codec, p.disk, now).Some?
      then p.(mem := RecoverDisk(codec, p.disk, now).value, phase := Running, done := Replayed(p), pending := None)
      else p
  }

  ghost function Run(codec: Codec, p: Process, events: seq<Event>): Process {
    if events == [] then p else Step(codec, Run(codec, p, events[..|events| - 1]), events[|events| - 1])
  }

  // ----- What the journal and the snapshot say about the history -----

  ghost function Records(p: Process): seq<Command> {
    Journal(INITIAL, AllInputs(p))
  }

  ghost predicate SnapshotOk(codec: Codec, p: Process, file: SnapshotFile)
    requires p.walStart + |p.written| == |AllInputs(p)|
  {
    && p.walStart <= p.snapAt <= |AllInputs(p)|
    && IsSnapshotOf(file.data, LiveRun(INITIAL, AllInputs(p)[..p.snapAt]))
    && (file.walID == p.disk.walID ==> file.offset == |EncodeAll(codec, p.written[..p.snapAt - p.walStart])|)
    && (file.walID != p.disk.walID ==> p.snapAt == p.walStart)
  }

  /** What is written reads as the records of the history do. */
  ghost predicate WrittenOk(p: Process) {
    && p.walStart + |p.written| == |AllInputs(p)| == |Records(p)|
    && AllThroughJson(p.written) == AllThroughJson(Records(p)[p.walStart..])
  }

  ghost predicate DiskOk(codec: Codec, p: Process) {
    && InputsOk(AllInputs(p))
    && WrittenOk(p)
    && p.disk.bytes == EncodeAll(codec, p.written) + p.torn
    && (p.torn == [] || IsTorn(codec, p.torn))
    && (p.disk.snap.None? ==> p.walStart == 0)
    && (p.disk.snap.Some? ==> SnapshotOk(codec, p, p.disk.snap.value))
  }

  ghost predicate ProcessOk(codec: Codec, p: Process) {
    && DiskOk(codec, p)
    && (p.phase.Running? || p.phase.Saved? ==> p.pending.None? && p.mem == LiveRun(INITIAL, p.done))
    && (p.phase.Saved? ==>
          p.disk.snap.Some? && p.disk.snap.value.walID == p.disk.walID && p.snapAt == |p.done| && p.torn == [])
  }

  /** The journal does not end in the middle of a line. */
  predicate Clean(bytes: seq<byte>) {
    bytes == [] || bytes[|bytes| - 1] == NEWLINE
  }

  /** Every expiry revoke behind the snapshot hits or misses its lease as it did live
      once deadlines are rounded; lease ids, times-to-live and revisions are float64. */
  ghost predicate TailFaithful(p: Process) {
    AllFaithful(LiveRun(INITIAL, Safe(p)), Uncovered(p))
  }

  /** The state of the whole history, the deadlines set behind the snapshot rounded. */
  ghost function Expected(p: Process): State {
    RoundState(LiveRun(INITIAL, AllInputs(p)), Touched(LiveRun(INITIAL, Safe(p)), Uncovered(p)))
  }

  /** Every record not covered by the snapshot survives the JSON hop. */
  ghost predicate TailExact(p: Process) {
    JournalExact(LiveRun(INITIAL, Safe(p)), Uncovered(p))
  }

  // ----- Journals of joined runs -----

  lemma {:induction false} RunConcat(s: State, a: seq<Input>, b: seq<Input>)
    ensures LiveRun(s, a + b) == LiveRun(LiveRun(s, a), b)
    ensures Journal(s, a + b) == Journal(s, a) + Journal(LiveRun(s, a), b)
  {
    hide Live, Journaled;
    if b == [] {
      assert a + b == a;
      assert Journal(s, a) + [] == Journal(s, a);
    } else {
      var n := |b| - 1;
      RunConcat(s, a, b[..n]);
      assert (a + b)[..|a + b| - 1] == a + b[..n];
      assert (a + b)[|a + b| - 1] == b[n];
    }
  }

  lemma JournalSplit(inputs: seq<Input>, k: nat)
    requires k <= |inputs|
    ensures |Journal(INITIAL, inputs)| == |inputs|
    ensures Journal(INITIAL, inputs)[..k] == Journal(INITIAL, inputs[..k])
    ensures Journal(INITIAL, inputs)[k..] == Journal(LiveRun(INITIAL, inputs[..k]), inputs[k..])
    ensures LiveRun(INITIAL, inputs) == LiveRun(LiveRun(INITIAL, inputs[..k]), inputs[k..])
  {
    hide Journal, LiveRun;
    assert inputs[..k] + inputs[k..] == inputs;
    RunConcat(INITIAL, inputs[..k], inputs[k..]);
    JournalLength(INITIAL, inputs);
    JournalLength(INITIAL, inputs[..k]);
  }

  // ----- Recovery from a disk in order -----

  /** Where recovery starts to read the journal. */
  function StartOffset(disk: Disk): int {
    if disk.snap.Some? && disk.snap.value.walID == disk.walID then disk.snap.value.offset else 0
  }

  /** The place of the start offset among the records of the journal file. */
  lemma StartIsBoundary(codec: Codec, p: Process) returns (k: nat)
    requires DiskOk(codec, p)
    ensures && k <= |p.written|
            && StartOffset(p.disk) == |EncodeAll(codec, p.written[..k])|
            && p.walStart + k == Covered(p) <= |AllInputs(p)| == |Records(p)|
  {
    hide EncodeAll, InputOk, IsSnapshotOf, LiveRun, Journal, IsTorn;
    k := if p.disk.snap.Some? && p.disk.snap.value.walID == p.disk.walID then p.snapAt - p.walStart else 0;
    EncodeNone(codec);
  }

  lemma HopSuffix(a: seq<Command>, b: seq<Command>, k: nat)
    requires AllThroughJson(a) == AllThroughJson(b) && k <= |a|
    ensures |a| == |b| && AllThroughJson(a[k..]) == AllThroughJson(b[k..])
  {
    hide ThroughJson;
    assert |AllThroughJson(a)| == |a| && |AllThroughJson(b)| == |b|;
    forall j | 0 <= j < |a| - k ensures ThroughJson(a[k..][j]) == ThroughJson(b[k..][j]) {
      assert AllThroughJson(a)[k + j] == AllThroughJson(b)[k + j];
    }
  }

  /** The records from the snapshot on, and nothing else, are what recovery reads,
      each as the JSON hop leaves it. */
  lemma TailIsRead(codec: Codec, p: Process)
    requires Readable(codec) && DiskOk(codec, p)
    ensures Covered(p) <= |Records(p)|
    ensures ReadFrom(codec, p.disk.bytes, StartOffset(p.disk)) == Some(AllThroughJson(Records(p)[Covered(p)..]))
  {
    hide ReadFrom, EncodeAll, InputOk, SnapshotOk, LiveRun, Journal, EncodesLines, ReadsBack, IsTorn, AllThroughJson;
    var k := StartIsBoundary(codec, p);
    TornHasNoNewline(codec, p.torn);
    ReadFromBoundary(codec, p.written, k, p.torn);
    HopSuffix(p.written, Records(p)[p.walStart..], k);
    assert Records(p)[p.walStart..][k..] == Records(p)[Covered(p)..];
  }

  lemma CoveredState(codec: Codec, p: Process)
    requires DiskOk(codec, p)
    ensures var s := LiveRun(INITIAL, Safe(p));
            && Inv(s)
            && (p.disk.snap.Some? ==> RestoreState(p.disk.snap.value.data) == Some(s))
            && (p.disk.snap.None? ==> s == INITIAL)
  {
    hide Inv, Positive, Live, IsSnapshotOf, RestoreState, InputOk, EncodeAll, Journal, IsTorn, AllThroughJson;
    var covered := Safe(p);
    InitialInv();
    InitialPositive();
    ReachableInv(INITIAL, covered);
    if p.disk.snap.Some? {
      ReachablePositive(INITIAL, covered);
      SnapshotRoundTrip(LiveRun(INITIAL, covered), p.disk.snap.value.data);
    }
  }

  lemma InitialPositive()
    ensures Positive(INITIAL.table)
  {
  }

  /** Recovery from any disk a run can leave: all commands applied in memory, plus the
      one that was journaled and not applied, if there is one, and the deadlines set
      behind the snapshot rounded; an unknown command type there makes it fail. */
  lemma RecoveryRounds(codec: Codec, p: Process, now: int)
    requires Readable(codec) && DiskOk(codec, p) && TailFaithful(p)
    ensures RecoverDisk(codec, p.disk, now) == if KnownTypes(Uncovered(p)) then Some(Expected(p)) else None
    ensures Expected(p) == LiveRun(INITIAL, Replayed(p))
  {
    TailIsRead(codec, p);
    CoveredState(codec, p);
    CoveredInRange(codec, p);
    var k, all := Covered(p), AllInputs(p);
    JournalSplit(all, k);
    hide Inv, RestoreState, ReadFrom, Readable, DiskOk, LiveRun, Journal, Replay, InputOk, KnownTypes, AllFaithful,
         RoundState, Touched, HoppedAll, AllThroughJson;
    ReplayRounds(LiveRun(INITIAL, all[..k]), all[k..], now);
    RunRounds(LiveRun(INITIAL, all[..k]), all[k..]);
    RunConcat(INITIAL, all[..k], HoppedAll(all[k..]));
  }

  /** If every record behind the snapshot survives the JSON hop, nothing is rounded. */
  lemma RecoveryIsExact(codec: Codec, p: Process, now: int)
    requires Readable(codec) && DiskOk(codec, p) && TailExact(p)
    ensures TailFaithful(p)
    ensures RecoverDisk(codec, p.disk, now) ==
              if KnownTypes(Uncovered(p)) then Some(LiveRun(INITIAL, AllInputs(p))) else None
  {
    CoveredInRange(codec, p);
    hide Readable, DiskOk, LiveRun, KnownTypes, AllFaithful, RoundState, Touched, RecoverDisk, Replayed, JournalExact;
    ExactIsFaithful(LiveRun(INITIAL, Safe(p)), Uncovered(p));
    JournalSplit(AllInputs(p), Covered(p));
    RecoveryRounds(codec, p, now);
  }

  lemma CoveredInRange(codec: Codec, p: Process)
    requires DiskOk(codec, p)
    ensures Covered(p) <= |AllInputs(p)| && InputsOk(AllInputs(p)[Covered(p)..]) && InputsOk(Safe(p))
  {
    hide EncodeAll, IsSnapshotOf, InputOk, IsTorn, LiveRun, Journal, AllThroughJson;
  }

  // ----- Every step keeps the disk in order -----

  lemma CleanIffNotTorn(codec: Codec, p: Process)
    requires EncodesLines(codec) && DiskOk(codec, p)
    ensures Clean(p.disk.bytes) <==> p.torn == []
  {
    hide EncodeAll, IsSnapshotOf, InputOk, IsTorn, LiveRun, Journal, EncodesLines, AllThroughJson;
    TornHasNoNewline(codec, p.torn);
    EncodedEndsLine(codec, p.written);
    EncodeNone(codec);
  }

  /** The history and the records after one more command has been journaled. */
  lemma OneMoreRecord(all: seq<Input>, i: Input, walStart: nat)
    requires walStart <= |all|
    ensures var records, records', c := Journal(INITIAL, all), Journal(INITIAL, all + [i]), Journaled(LiveRun(INITIAL, all), i);
            && |records| == |all| && |records'| == |all| + 1
            && records' == records + [c] && records'[walStart..] == records[walStart..] + [c]
            && LiveRun(INITIAL, all + [i]) == Live(LiveRun(INITIAL, all), i)
  {
    hide Live, Journaled;
    assert (all + [i])[..|all|] == all;
    JournalLength(INITIAL, all);
  }

  lemma EncodeMore(codec: Codec, cs: seq<Command>, c: Command)
    ensures EncodeAll(codec, cs + [c]) == EncodeAll(codec, cs) + Line(codec, c)
  {
    EncodeConcat(codec, cs, [c]);
    EncodeNone(codec);
    assert Line(codec, c) + [] == Line(codec, c);
  }

  /** Appending a whole line to a clean journal, with or without applying it. */
  lemma JournalOne(codec: Codec, p: Process, p': Process, i: Input)
    requires DiskOk(codec, p) && p.torn == [] && p.pending.None? && InputOk(i)
    requires AllInputs(p') == p.done + [i]
    requires var c := Journaled(LiveRun(INITIAL, p.done), i);
             p'.disk == p.disk.(bytes := p.disk.bytes + Line(codec, c)) && p'.written == p.written + [c]
    requires p'.walStart == p.walStart && p'.snapAt == p.snapAt && p'.torn == []
    ensures DiskOk(codec, p')
  {
    hide EncodeAll, IsSnapshotOf, InputOk, LiveRun, Journal, Journaled, Line, AllThroughJson;
    assert AllInputs(p) == p.done;
    var c := Journaled(LiveRun(INITIAL, p.done), i);
    OneMoreRecord(p.done, i, p.walStart);
    EncodeMore(codec, p.written, c);
    HopConcat(p.written, c);
    HopConcat(Records(p)[p.walStart..], c);
    if p.disk.snap.Some? {
      assert AllInputs(p')[..p.snapAt] == AllInputs(p)[..p.snapAt];
      assert p'.written[..p.snapAt - p.walStart] == p.written[..p.snapAt - p.walStart];
    }
  }

  lemma ApplyOk(codec: Codec, p: Process, i: Input)
    requires EncodesLines(codec) && ProcessOk(codec, p) && InputOk(i) && Clean(p.disk.bytes)
    ensures ProcessOk(codec, Step(codec, p, Apply(i)))
  {
    hide DiskOk, EncodesLines, Clean, Journaled, InputOk, Live, Line;
    CleanIffNotTorn(codec, p);
    if p.phase.Running? {
      JournalOne(codec, p, Step(codec, p, Apply(i)), i);
      assert (p.done + [i])[..|p.done|] == p.done;
    }
  }

  lemma WriteStopsOk(codec: Codec, p: Process, i: Input, n: nat)
    requires EncodesLines(codec) && ProcessOk(codec, p) && InputOk(i) && Clean(p.disk.bytes)
    ensures ProcessOk(codec, Step(codec, p, WriteStops(i, n)))
  {
    hide EncodesLines, Clean, Journaled, InputOk, Live, LiveRun, IsSnapshotOf, Journal, EncodeAll, IsTorn, AllThroughJson;
    CleanIffNotTorn(codec, p);
    var c := Journaled(p.mem, i);
    var p' := Step(codec, p, WriteStops(i, n));
    if p.phase.Running? && n == |Line(codec, c)| {
      assert Line(codec, c)[..n] == Line(codec, c);
      JournalOne(codec, p, p', i);
    } else if p.phase.Running? && n < |Line(codec, c)| {
      TornPiece(codec, c, n);
      assert p'.torn == Line(codec, c)[..n];
      assert AllInputs(p') == AllInputs(p);
      assert p'.disk.bytes == EncodeAll(codec, p'.written) + p'.torn;
    }
  }

  lemma TornPiece(codec: Codec, c: Command, n: nat)
    requires n < |Line(codec, c)|
    ensures Line(codec, c)[..n] == [] || IsTorn(codec, Line(codec, c)[..n])
  {
    assert Line(codec, c)[..n] == codec.enc(c)[..n];
  }

  lemma SaveOk(codec: Codec, p: Process, snap: ServerSnapshot)
    requires EncodesLines(codec) && ProcessOk(codec, p) && Clean(p.disk.bytes)
    ensures ProcessOk(codec, Step(codec, p, Save(snap)))
  {
    hide EncodesLines, Clean, InputOk, LiveRun, IsSnapshotOf, Journal, EncodeAll, IsTorn, AllThroughJson;
    CleanIffNotTorn(codec, p);
    if p.phase.Running? && IsSnapshotOf(snap, p.mem) {
      var p' := Step(codec, p, Save(snap));
      assert AllInputs(p') == AllInputs(p) == p.done && p.done[..|p.done|] == p.done;
      assert p'.written[..p'.snapAt - p.walStart] == p.written;
      assert p.disk.bytes == EncodeAll(codec, p.written);
    }
  }

  lemma ClearOk(codec: Codec, p: Process, walID: int)
    requires ProcessOk(codec, p)
    ensures ProcessOk(codec, Step(codec, p, Clear(walID)))
  {
    hide InputOk, LiveRun, IsSnapshotOf, Journal, EncodeAll, IsTorn, ThroughJson;
    EncodeNone(codec);
    var p' := Step(codec, p, Clear(walID));
    assert AllInputs(p') == AllInputs(p);
    if p.phase.Saved? && walID != p.disk.walID {
      assert Records(p')[p'.walStart..] == [];
    }
  }

  lemma HopTwice(cs: seq<Command>)
    ensures AllThroughJson(AllThroughJson(cs)) == AllThroughJson(cs)
  {
    hide ThroughJson;
    forall j | 0 <= j < |cs| ensures ThroughJson(ThroughJson(cs[j])) == ThroughJson(cs[j]) {
      JsonHopIsIdempotent(cs[j]);
    }
  }

  lemma HopAppend(a: seq<Command>, b: seq<Command>)
    ensures AllThroughJson(a + b) == AllThroughJson(a) + AllThroughJson(b)
  {
    hide ThroughJson;
  }

  lemma HopSame(head: seq<Command>, tail: seq<Command>, k: nat)
    requires k <= |head|
    ensures AllThroughJson((head + tail)[k..]) == AllThroughJson((head + AllThroughJson(tail))[k..])
    ensures |AllThroughJson(tail)| == |tail|
  {
    HopLength(tail);
    HopAppend(head[k..], tail);
    HopAppend(head[k..], AllThroughJson(tail));
    HopTwice(tail);
    hide AllThroughJson;
    assert (head + tail)[k..] == head[k..] + tail;
    assert (head + AllThroughJson(tail))[k..] == head[k..] + AllThroughJson(tail);
  }

  lemma SafeAndUncovered(p: Process)
    ensures Safe(p) + Uncovered(p) == AllInputs(p)
  {
  }

  lemma ReplayedJournal(codec: Codec, p: Process)
    requires DiskOk(codec, p) && TailFaithful(p)
    ensures var head, tail := Journal(INITIAL, Safe(p)), Journal(LiveRun(INITIAL, Safe(p)), Uncovered(p));
            && |head| == |Safe(p)| == Covered(p) && |AllInputs(p)| == |Replayed(p)| == Covered(p) + |tail|
            && Records(p) == head + tail
            && Journal(INITIAL, Replayed(p)) == head + AllThroughJson(tail)
            && InputsOk(Replayed(p))
  {
    hide Inv, DiskOk, LiveRun, Journal, InputOk, AllFaithful, RoundState, Touched, Hopped, AllThroughJson, RestoreState;
    CoveredInRange(codec, p);
    CoveredState(codec, p);
    SafeAndUncovered(p);
    RunConcat(INITIAL, Safe(p), Uncovered(p));
    RunConcat(INITIAL, Safe(p), HoppedAll(Uncovered(p)));
    RunRounds(LiveRun(INITIAL, Safe(p)), Uncovered(p));
    JournalLength(INITIAL, Safe(p));
    JournalLength(LiveRun(INITIAL, Safe(p)), Uncovered(p));
  }

  /** The history with its tail hopped journals what reads like the same records. */
  lemma ReplayedRecords(codec: Codec, p: Process, p': Process)
    requires DiskOk(codec, p) && TailFaithful(p)
    requires AllInputs(p') == Replayed(p) && p'.walStart == p.walStart && p'.written == p.written
    ensures WrittenOk(p') && InputsOk(AllInputs(p'))
    ensures |AllInputs(p')| == |AllInputs(p)| && Covered(p) <= |AllInputs(p)| && AllInputs(p')[..Covered(p)] == Safe(p)
  {
    var k := StartIsBoundary(codec, p);
    ReplayedJournal(codec, p);
    var head, tail := Journal(INITIAL, Safe(p)), Journal(LiveRun(INITIAL, Safe(p)), Uncovered(p));
    hide InputsOk, LiveRun, Journal, AllThroughJson, SnapshotOk, EncodeAll, IsTorn, HoppedAll, TailFaithful;
    HopSame(head, tail, p.walStart);
  }

  lemma HopLength(cs: seq<Command>)
    ensures |AllThroughJson(cs)| == |cs|
  {
  }

  lemma RecoverOk(codec: Codec, p: Process, now: int)
    requires Readable(codec) && ProcessOk(codec, p) && TailFaithful(p)
    ensures ProcessOk(codec, Step(codec, p, Recover(now)))
  {
    hide Readable, TailFaithful, InputOk, LiveRun, IsSnapshotOf, Journal, EncodeAll, IsTorn, RecoverDisk, KnownTypes,
         WrittenOk, Replayed, Expected, InputsOk;
    if p.phase.Down? && RecoverDisk(codec, p.disk, now).Some? {
      var p' := Step(codec, p, Recover(now));
      RecoveryRounds(codec, p, now);
      NoPending(p');
      ReplayedRecords(codec, p, p');
      assert WrittenOk(p);
      WrittenLength(p);
      WrittenLength(p');
    }
  }

  lemma WrittenLength(p: Process)
    requires WrittenOk(p)
    ensures p.walStart + |p.written| == |AllInputs(p)|
  {
  }

  lemma NoPending(p: Process)
    requires p.pending.None?
    ensures AllInputs(p) == p.done
  {
  }

  // ----- Whole runs -----

  /** What a run needs of one step: commands carry a usable deadline; nothing is
      appended to, and no snapshot is taken of, a journal that ends in a torn line; and
      a restart finds expiry revokes that rounding does not divert. */
  ghost predicate EventOk(p: Process, e: Event) {
    match e
    case Apply(i) => InputOk(i) && Clean(p.disk.bytes)
    case WriteStops(i, n) => InputOk(i) && Clean(p.disk.bytes)
    case Save(_) => Clean(p.disk.bytes)
    case Clear(_) => true
    case Crash => true
    case Recover(_) => TailFaithful(p)
  }

  ghost predicate EventsOk(codec: Codec, p: Process, events: seq<Event>) {
    forall j :: 0 <= j < |events| ==> EventOk(Run(codec, p, events[..j]), events[j])
  }

  lemma StepOk(codec: Codec, p: Process, e: Event)
    requires Readable(codec) && ProcessOk(codec, p) && EventOk(p, e)
    ensures ProcessOk(codec, Step(codec, p, e))
  {
    hide EncodesLines, ReadsBack, ProcessOk, TailFaithful, Clean, InputOk, RecoverDisk;
    match e
    case Apply(i) => ApplyOk(codec, p, i);
    case WriteStops(i, n) => WriteStopsOk(codec, p, i, n);
    case Save(snap) => SaveOk(codec, p, snap);
    case Clear(walID) => ClearOk(codec, p, walID);
    case Crash => CrashOk(codec, p);
    case Recover(now) => RecoverOk(codec, p, now);
  }

  lemma CrashOk(codec: Codec, p: Process)
    requires ProcessOk(codec, p)
    ensures ProcessOk(codec, p.(phase := Down))
  {
    hide InputOk, LiveRun, IsSnapshotOf, Journal, EncodeAll, IsTorn, AllThroughJson;
    assert AllInputs(p.(phase := Down)) == AllInputs(p);
  }

  lemma {:induction false} RunOk(codec: Codec, p: Process, events: seq<Event>)
    requires Readable(codec) && ProcessOk(codec, p) && EventsOk(codec, p, events)
    ensures ProcessOk(codec, Run(codec, p, events))
  {
    hide Readable, ProcessOk, EventOk, Step;
    if events != [] {
      var n := |events| - 1;
      assert forall j :: 0 <= j < n ==> events[..n][..j] == events[..j];
      RunOk(codec, p, events[..n]);
      StepOk(codec, Run(codec, p, events[..n]), events[n]);
    }
  }

  lemma FreshOk(codec: Codec, walID: int)
    ensures ProcessOk(codec, Fresh(walID))
  {
    assert Journal(INITIAL, []) == [];
  }

  /** After any run of appends, failed writes, saves, clears, crashes and restarts, a
      restart at any time yields the state of all commands applied in memory plus at
      most the one that was journaled and not applied, none lost and none replayed
      twice. Only the deadlines set behind the snapshot are rounded to float64. It fails
      only over an unknown command type behind the snapshot. */
  lemma CrashSafety(codec: Codec, walID: int, events: seq<Event>, now: int)
    requires Readable(codec) && EventsOk(codec, Fresh(walID), events)
    requires TailFaithful(Run(codec, Fresh(walID), events))
    ensures var p := Run(codec, Fresh(walID), events);
            && RecoverDisk(codec, p.disk, now) == (if KnownTypes(Uncovered(p)) then Some(Expected(p)) else None)
            && Expected(p) == LiveRun(INITIAL, Replayed(p))
  {
    FreshOk(codec, walID);
    hide Readable, EventsOk, ProcessOk, TailFaithful, RecoverDisk, KnownTypes, Run, Expected, Replayed;
    RunOk(codec, Fresh(walID), events);
    ProcessDiskOk(codec, Run(codec, Fresh(walID), events));
    RecoveryRounds(codec, Run(codec, Fresh(walID), events), now);
  }

  /** If the records behind the snapshot survive the JSON hop, the restart is exact. */
  lemma ExactCrashSafety(codec: Codec, walID: int, events: seq<Event>, now: int)
    requires Readable(codec) && EventsOk(codec, Fresh(walID), events)
    requires TailExact(Run(codec, Fresh(walID), events))
    ensures var p := Run(codec, Fresh(walID), events);
            RecoverDisk(codec, p.disk, now) ==
              if KnownTypes(Uncovered(p)) then Some(LiveRun(INITIAL, AllInputs(p))) else None
  {
    FreshOk(codec, walID);
    hide Readable, EventsOk, ProcessOk, TailExact, RecoverDisk, KnownTypes, Run, LiveRun;
    RunOk(codec, Fresh(walID), events);
    ProcessDiskOk(codec, Run(codec, Fresh(walID), events));
    RecoveryIsExact(codec, Run(codec, Fresh(walID), events), now);
  }

  // ----- Nothing that was applied is lost -----

  /** The same command, apart from its deadline. */
  predicate SameCommand(i: Input, i': Input) {
    i'.cmd == i.cmd.(expireAt := i'.cmd.expireAt)
  }

  ghost predicate Extends(a: seq<Input>, b: seq<Input>) {
    |a| <= |b| && forall j :: 0 <= j < |a| ==> SameCommand(a[j], b[j])
  }

  lemma ExtendsTwice(a: seq<Input>, b: seq<Input>, c: seq<Input>)
    requires Extends(a, b) && Extends(b, c)
    ensures Extends(a, c)
  {
    forall j | 0 <= j < |a| ensures SameCommand(a[j], c[j]) {
      assert SameCommand(a[j], b[j]) && SameCommand(b[j], c[j]);
    }
  }

  lemma ReplayedExtends(p: Process)
    ensures Extends(p.done, Replayed(p))
    ensures |Replayed(p)| == |AllInputs(p)| <= |p.done| + 1
  {
    hide ThroughFloat64, StampedDeadline;
    forall j | 0 <= j < |p.done| ensures SameCommand(p.done[j], Replayed(p)[j]) {
      assert AllInputs(p)[j] == p.done[j];
      if Covered(p) <= j { assert Replayed(p)[j] == Hopped(AllInputs(p)[j]); }
    }
  }

  lemma StepExtends(codec: Codec, p: Process, e: Event)
    ensures Extends(p.done, Step(codec, p, e).done)
  {
    ReplayedExtends(p);
    hide Live, Journaled, RecoverDisk, IsSnapshotOf, Replayed, Line;
  }

  lemma {:induction false} HistoryGrows(codec: Codec, p: Process, events: seq<Event>)
    ensures Extends(p.done, Run(codec, p, events).done)
  {
    hide Step;
    if events != [] {
      hide Extends;
      var d := Run(codec, p, events[..|events| - 1]);
      HistoryGrows(codec, p, events[..|events| - 1]);
      StepExtends(codec, d, events[|events| - 1]);
      ExtendsTwice(p.done, d.done, Step(codec, d, events[|events| - 1]).done);
    }
  }

  lemma {:induction false} RunSplit(codec: Codec, p: Process, a: seq<Event>, b: seq<Event>)
    ensures Run(codec, p, a + b) == Run(codec, Run(codec, p, a), b)
  {
    hide Step;
    if b == [] {
      assert a + b == a;
    } else {
      var n := |b| - 1;
      RunSplit(codec, p, a, b[..n]);
      assert (a + b)[..|a + b| - 1] == a + b[..n] && (a + b)[|a + b| - 1] == b[n];
    }
  }

  /** What had been applied at some moment is part of every later recovery: the
      recovered state is that of a history that starts with the same commands in the
      same order, and has at most one more than were applied in the end. */
  lemma AppliedSurvives(codec: Codec, walID: int, before: seq<Event>, after: seq<Event>, now: int)
    requires Readable(codec) && EventsOk(codec, Fresh(walID), before + after)
    requires TailFaithful(Run(codec, Fresh(walID), before + after))
    ensures var p, q := Run(codec, Fresh(walID), before), Run(codec, Fresh(walID), before + after);
            && RecoverDisk(codec, q.disk, now) ==
                 (if KnownTypes(Uncovered(q)) then Some(LiveRun(INITIAL, Replayed(q))) else None)
            && Extends(p.done, Replayed(q))
            && |Replayed(q)| <= |q.done| + 1
  {
    var p, q := Run(codec, Fresh(walID), before), Run(codec, Fresh(walID), before + after);
    hide Readable, EventsOk, TailFaithful, RecoverDisk, KnownTypes, Run, Expected, Replayed, Extends, LiveRun;
    CrashSafety(codec, walID, before + after, now);
    RunSplit(codec, Fresh(walID), before, after);
    HistoryGrows(codec, p, after);
    ReplayedExtends(q);
    ExtendsTwice(p.done, q.done, Replayed(q));
  }

  // ----- Where the conditions come from -----

  lemma ProcessDiskOk(codec: Codec, p: Process)
    requires ProcessOk(codec, p)
    ensures DiskOk(codec, p) && (p.phase.Running? ==> p.pending.None?)
  {
    hide DiskOk;
  }

  /** A command applied on top of a journal with a torn last line is recoverable
      exactly when there is no such line: the reader ignores it, nobody removes it,
      and the next record is glued to it. */
  lemma AppendRecoverableIffClean(codec: Codec, p: Process, i: Input, now: int)
    requires Lawful(codec) && ProcessOk(codec, p) && p.phase.Running? && InputOk(i)
    requires TailFaithful(Step(codec, p, Apply(i))) && KnownTypes(Uncovered(Step(codec, p, Apply(i))))
    ensures var p' := Step(codec, p, Apply(i));
            RecoverDisk(codec, p'.disk, now) == Some(Expected(p')) <==> Clean(p.disk.bytes)
  {
    hide EncodesLines, ReadsBack, RejectsGlue, ProcessOk, TailFaithful, KnownTypes, InputOk, RecoverDisk, Clean,
         Expected, Uncovered, Replayed;
    var p' := Step(codec, p, Apply(i));
    if Clean(p.disk.bytes) {
      ApplyOk(codec, p, i);
      ProcessDiskOk(codec, p');
      RecoveryRounds(codec, p', now);
    } else {
      AppendToTorn(codec, p, Journaled(p.mem, i), now);
    }
  }

  lemma AppendToTorn(codec: Codec, p: Process, c: Command, now: int)
    requires Lawful(codec) && ProcessOk(codec, p) && !Clean(p.disk.bytes)
    ensures RecoverDisk(codec, p.disk.(bytes := p.disk.bytes + Line(codec, c)), now) == None
  {
    hide EncodeAll, InputOk, SnapshotOk, LiveRun, Journal, EncodesLines, ReadsBack, RejectsGlue, IsTorn, ReadFrom, Replay,
         RestoreState, Clean, Line, AllThroughJson;
    CleanIffNotTorn(codec, p);
    var k := StartIsBoundary(codec, p);
    TornAppendIsUnreadable(codec, p.written, k, p.torn, c);
    assert p.disk.bytes + Line(codec, c) == EncodeAll(codec, p.written) + (p.torn + Line(codec, c));
  }

  /** A shutdown snapshot of a journal with a torn last line records an offset inside
      a line, and a crash before the clear leaves a disk that does not start. */
  lemma SaveRecoverableIffClean(codec: Codec, p: Process, snap: ServerSnapshot, now: int)
    requires Readable(codec) && ProcessOk(codec, p) && p.phase.Running? && IsSnapshotOf(snap, p.mem)
    ensures RecoverDisk(codec, Step(codec, p, Save(snap)).disk, now) == Some(p.mem) <==> Clean(p.disk.bytes)
  {
    hide EncodesLines, ReadsBack, ProcessOk, TailExact, IsSnapshotOf, LiveRun, RestoreState, Decode, Replay, Journal,
         TailFaithful;
    var p' := Step(codec, p, Save(snap));
    if Clean(p.disk.bytes) {
      SaveOk(codec, p, snap);
      SavedFacts(codec, p);
      SavedFacts(codec, p');
      RecoveryIsExact(codec, p', now);
    }
  }

  lemma SavedFacts(codec: Codec, p: Process)
    requires ProcessOk(codec, p)
    ensures DiskOk(codec, p)
    ensures p.phase.Running? || p.phase.Saved? ==> p.mem == LiveRun(INITIAL, AllInputs(p)) && p.pending.None?
    ensures p.phase.Saved? ==> Safe(p) == AllInputs(p) && Uncovered(p) == [] && KnownTypes(Uncovered(p)) && TailExact(p)
  {
    hide LiveRun, IsSnapshotOf, EncodeAll, IsTorn, InputOk, JsonExact, AllThroughJson;
    assert p.pending.None? ==> AllInputs(p) == p.done;
    if p.phase.Saved? {
      assert Safe(p) == AllInputs(p) && Uncovered(p) == [];
    }
  }

  /** Clearing must change the file identity: a journal emptied under its old identity
      is recoverable exactly when the snapshot's offset was zero anyway. */
  lemma ClearNeedsNewIdentity(codec: Codec, p: Process, walID: int, now: int)
    requires Readable(codec) && ProcessOk(codec, p) && p.phase.Saved?
    ensures var disk := p.disk.(walID := walID, bytes := []);
            RecoverDisk(codec, disk, now) == Some(p.mem) <==> walID != p.disk.walID || p.disk.snap.value.offset == 0
  {
    SavedFacts(codec, p);
    CoveredState(codec, p);
    assert p.disk.snap.Some? && p.disk.snap.value.walID == p.disk.walID && p.disk.snap.value.offset >= 0;
    hide Readable, ProcessOk, DiskOk, LiveRun, RestoreState, Decode, IsSnapshotOf;
    EmptyJournalReads(codec);
    assert Replay(p.mem, [], now) == Some(p.mem);
  }

  lemma EmptyJournalReads(codec: Codec)
    requires Readable(codec)
    ensures ReadFrom(codec, [], 0) == Some([])
  {
    DecodeUndoesEncode(codec, [], []);
    assert EncodeAll(codec, []) + [] == [] && AllThroughJson([]) == [];
  }

  /** Replaying the expiry of a lease drops it exactly when its deadline is a float64:
      the snapshot keeps deadlines exactly, the journal rounds them. Otherwise nothing
      happens at all. */
  lemma ExpiryReplayIff(s: State, id: int, now: int)
    requires Inv(s) && id in s.table.leases && s.table.leases[id].expireAt > 0 && FloatExact(id)
    ensures var d := s.table.leases[id].expireAt;
            var i := Input(ExpiryRevoke(id, d), now);
            var recovered := Recovered(s, ThroughJson(Journaled(s, i)), now);
            && (recovered == Some(Live(s, i)) <==> FloatExact(d))
            && (recovered == Some(s) <==> !FloatExact(d))
            && id !in Live(s, i).table.leases
  {
    var d := s.table.leases[id].expireAt;
    var i := Input(ExpiryRevoke(id, d), now);
    FloatExactness(id);
    FloatExactness(d);
    FloatExactness(0);
    ThroughFloat64Positive(d);
    InvBounds(s);
    var c := Journaled(s, i);
    assert c == ExpiryRevoke(id, d);
    assert ThroughJson(c) == ExpiryRevoke(id, ThroughFloat64(d));
    hide ThroughFloat64, FloatExact, ThroughJson;
    assert Live(s, i) == RevokeEffect(s, id);
    assert id !in Live(s, i).table.leases;
    if FloatExact(d) {
      RecoveredIsLive(s, i, now);
    } else {
      CatchUpIdle(s);
      assert Recovered(s, ThroughJson(c), now) == Some(CatchUp(s));
    }
  }

  /** On disk: a server whose whole history is in its snapshot drops an expired lease
      and crashes. It comes back without the lease exactly when the deadline is a
      float64; otherwise the lease and its keys return. */
  lemma ExpiryRecoveryIff(codec: Codec, p: Process, id: int, now: int)
    requires Readable(codec) && ProcessOk(codec, p) && p.phase.Running? && Clean(p.disk.bytes)
    requires p.disk.snap.Some? && p.snapAt == |p.done|
    requires id in p.mem.table.leases && p.mem.table.leases[id].expireAt > 0 && FloatExact(id)
    ensures var d := p.mem.table.leases[id].expireAt;
            var p' := Step(codec, p, Apply(Input(ExpiryRevoke(id, d), now)));
            && (RecoverDisk(codec, p'.disk, now) == Some(p'.mem) <==> FloatExact(d))
            && (RecoverDisk(codec, p'.disk, now) == Some(p.mem) <==> !FloatExact(d))
            && id !in p'.mem.table.leases
  {
    var d := p.mem.table.leases[id].expireAt;
    var i := Input(ExpiryRevoke(id, d), now);
    var p' := Step(codec, p, Apply(i));
    assert EncodesLines(codec);
    ApplyOk(codec, p, i);
    OneRecordTail(codec, p, p', i);
    hide Readable, ProcessOk, IsSnapshotOf, LiveRun, RestoreState, Inv, Live, Recovered, ReadFrom, Journaled, ThroughJson, FloatExact;
    ExpiryReplayIff(p.mem, id, now);
    ReplayOne(p.mem, ThroughJson(Journaled(p.mem, i)), now);
  }

  lemma ReplayOne(s: State, c: Command, now: int)
    ensures Replay(s, [c], now) == Recovered(s, c, now)
  {
    hide Recovered;
    assert [c][..0] == [];
  }

  lemma OneRecordTail(codec: Codec, p: Process, p': Process, i: Input)
    requires Readable(codec) && ProcessOk(codec, p) && p.phase.Running?
    requires p.disk.snap.Some? && p.snapAt == |p.done|
    requires p' == Step(codec, p, Apply(i)) && ProcessOk(codec, p')
    ensures Inv(p.mem) && RestoreState(p'.disk.snap.value.data) == Some(p.mem)
    ensures ReadFrom(codec, p'.disk.bytes, StartOffset(p'.disk)) == Some([ThroughJson(Journaled(p.mem, i))])
  {
    hide Readable, IsSnapshotOf, LiveRun, RestoreState, Inv, Live, Recovered, ReadFrom, Journaled, ThroughJson, EncodeAll,
         IsTorn, InputOk, Line;
    assert AllInputs(p) == p.done && AllInputs(p') == p.done + [i];
    assert Safe(p') == p.done;
    CoveredState(codec, p');
    TailIsRead(codec, p');
    OneMoreRecord(p.done, i, p.walStart);
    assert Records(p')[Covered(p')..] == [Journaled(p.mem, i)];
    assert AllThroughJson([Journaled(p.mem, i)]) == [ThroughJson(Journaled(p.mem, i))];
  }

  // ----- Runs that end badly -----

  lemma RunSnoc(codec: Codec, p: Process, events: seq<Event>, e: Event)
    ensures Run(codec, p, events + [e]) == Step(codec, Run(codec, p, events), e)
  {
    hide Step;
    assert (events + [e])[..|events|] == events;
  }

  lemma RunThree(codec: Codec, p: Process, a: Event, b: Event, c: Event)
    ensures Run(codec, p, [a, b, c]) == Step(codec, Step(codec, Step(codec, p, a), b), c)
  {
    hide Step;
    RunSnoc(codec, p, [], a);
    RunSnoc(codec, p, [a], b);
    RunSnoc(codec, p, [a, b], c);
    assert [] + [a] == [a] && [a] + [b] == [a, b] && [a, b] + [c] == [a, b, c];
  }

  lemma TornAtOnce(codec: Codec, walID: int, i: Input)
    requires EncodesLines(codec) && InputOk(i)
    ensures var p := Step(codec, Step(codec, Fresh(walID), WriteStops(i, 1)), Crash);
            ProcessOk(codec, p) && p.phase.Down? && AllInputs(p) == [] && !Clean(p.disk.bytes)
  {
    var p0 := Fresh(walID);
    FreshOk(codec, walID);
    hide ProcessOk, Journaled, InputOk;
    WriteStopsOk(codec, p0, i, 1);
    CrashOk(codec, Step(codec, p0, WriteStops(i, 1)));
    var first := codec.enc(Journaled(INITIAL, i));
    assert first[0] in first;
    assert Line(codec, Journaled(INITIAL, i))[..1] == [first[0]];
  }

  lemma EmptyTail(p: Process)
    requires AllInputs(p) == []
    ensures Uncovered(p) == [] && KnownTypes(Uncovered(p)) && TailFaithful(p)
  {
  }

  /** One failed write and a restart leave a running server on a torn journal. */
  lemma TornTailIsReachable(codec: Codec, walID: int, i: Input, now: int)
    requires Readable(codec) && InputOk(i)
    ensures var p := Run(codec, Fresh(walID), [WriteStops(i, 1), Crash, Recover(now)]);
            p.phase.Running? && ProcessOk(codec, p) && !Clean(p.disk.bytes)
  {
    hide EncodesLines, ReadsBack, ProcessOk, RecoverDisk, Expected, Replayed, Run, Clean, TailFaithful, Uncovered,
         KnownTypes, InputOk;
    var p := Step(codec, Step(codec, Fresh(walID), WriteStops(i, 1)), Crash);
    RunThree(codec, Fresh(walID), WriteStops(i, 1), Crash, Recover(now));
    TornAtOnce(codec, walID, i);
    EmptyTail(p);
    ProcessDiskOk(codec, p);
    RecoverOk(codec, p, now);
    RecoveryRounds(codec, p, now);
  }

  /** There every command applied next, and a shutdown snapshot, is lost. */
  lemma TornTailLosesCommands(codec: Codec, walID: int, i: Input, next: Input, snap: ServerSnapshot, now: int)
    requires Lawful(codec) && InputOk(i)
    ensures var p := Run(codec, Fresh(walID), [WriteStops(i, 1), Crash, Recover(now)]);
            && RecoverDisk(codec, Step(codec, p, Apply(next)).disk, now) == None
            && (IsSnapshotOf(snap, p.mem) ==> RecoverDisk(codec, Step(codec, p, Save(snap)).disk, now) != Some(p.mem))
  {
    var p := Run(codec, Fresh(walID), [WriteStops(i, 1), Crash, Recover(now)]);
    hide EncodesLines, ReadsBack, RejectsGlue, ProcessOk, Run, RecoverDisk, Clean, IsSnapshotOf, InputOk, Live, Journaled;
    TornTailIsReachable(codec, walID, i, now);
    AppendToTorn(codec, p, Journaled(p.mem, next), now);
    if IsSnapshotOf(snap, p.mem) {
      SaveRecoverableIffClean(codec, p, snap, now);
    }
  }

  const SAMPLE_DEADLINE := 1_700_000_000_000_000_001
  const SAMPLE_GRANT := Input(Command(LeaseGrant, "", "", 0, 10, SAMPLE_DEADLINE, 0, false, 0, ""), 0)
  const SAMPLE_STATE := State(INITIAL.store, Table(map[1 := Lease(1, 10, SAMPLE_DEADLINE, map[])], 1), 0)
  const SAMPLE_SNAPSHOT :=
    ServerSnapshot(KV.SnapshotStore(INITIAL.store), LeaseSnapshot(1, [Lease(1, 10, SAMPLE_DEADLINE, map[])]), 0)

  lemma SampleIsSnapshot()
    ensures Live(INITIAL, SAMPLE_GRANT) == SAMPLE_STATE && InputOk(SAMPLE_GRANT)
    ensures IsSnapshotOf(SAMPLE_SNAPSHOT, SAMPLE_STATE)
  {
  }

  /** A lease is granted, the server shuts down with a snapshot and starts again. */
  ghost function Restarted(codec: Codec): Process {
    Step(codec, Step(codec, Step(codec, Step(codec, Fresh(0), Apply(SAMPLE_GRANT)), Save(SAMPLE_SNAPSHOT)), Clear(1)), Recover(0))
  }

  lemma SavedSample(codec: Codec)
    requires EncodesLines(codec)
    ensures var p := Step(codec, Step(codec, Fresh(0), Apply(SAMPLE_GRANT)), Save(SAMPLE_SNAPSHOT));
            && ProcessOk(codec, p) && p.phase.Saved? && p.disk.walID == 0
            && p.done == [SAMPLE_GRANT] && p.pending.None? && p.snapAt == 1
  {
    hide Live, Journaled, IsSnapshotOf, Line, LiveRun, InputOk, EncodesLines, ProcessOk;
    SampleIsSnapshot();
    FreshOk(codec, 0);
    var p1 := Step(codec, Fresh(0), Apply(SAMPLE_GRANT));
    ApplyOk(codec, Fresh(0), SAMPLE_GRANT);
    ProcessDiskOk(codec, p1);
    CleanIffNotTorn(codec, p1);
    SaveOk(codec, p1, SAMPLE_SNAPSHOT);
  }

  /** Right after the clear the history is all in the snapshot. */
  lemma ClearedFacts(codec: Codec, p: Process, walID: int)
    requires ProcessOk(codec, p) && p.phase.Saved? && p.pending.None? && walID != p.disk.walID
    ensures var p' := Step(codec, p, Clear(walID));
            && ProcessOk(codec, p') && p'.phase.Down? && p'.disk.snap.Some? && Clean(p'.disk.bytes)
            && AllInputs(p') == p.done && p'.snapAt == |p.done|
            && Uncovered(p') == [] && KnownTypes(Uncovered(p')) && TailExact(p') && Replayed(p') == p.done
  {
    ClearOk(codec, p, walID);
    hide InputOk, LiveRun, IsSnapshotOf, EncodeAll, IsTorn, AllThroughJson;
    var p' := Step(codec, p, Clear(walID));
    assert AllInputs(p') == p.done;
    assert Safe(p') == p.done && Uncovered(p') == [] && HoppedAll([]) == [];
  }

  lemma RestartAfterClear(codec: Codec, p: Process, walID: int, now: int)
    requires Readable(codec) && ProcessOk(codec, p) && p.phase.Saved? && p.pending.None? && walID != p.disk.walID
    ensures var q := Step(codec, Step(codec, p, Clear(walID)), Recover(now));
            && ProcessOk(codec, q) && q.phase.Running? && Clean(q.disk.bytes)
            && q.disk.snap.Some? && q.snapAt == |q.done| && q.mem == LiveRun(INITIAL, p.done)
  {
    hide RecoverDisk, EncodesLines, ReadsBack, ProcessOk, Replayed, KnownTypes, TailExact, TailFaithful, Uncovered, Clean,
         LiveRun;
    var p' := Step(codec, p, Clear(walID));
    ClearedFacts(codec, p, walID);
    ProcessDiskOk(codec, p');
    RecoveryIsExact(codec, p', now);
    RecoverOk(codec, p', now);
  }

  lemma SampleRun()
    ensures LiveRun(INITIAL, [SAMPLE_GRANT]) == SAMPLE_STATE
  {
    hide Live;
    SampleIsSnapshot();
    assert [SAMPLE_GRANT][..0] == [];
  }

  lemma RestartedFacts(codec: Codec)
    requires Readable(codec)
    ensures var p := Restarted(codec);
            && ProcessOk(codec, p) && p.phase.Running? && Clean(p.disk.bytes)
            && p.disk.snap.Some? && p.snapAt == |p.done| && p.mem == SAMPLE_STATE
  {
    assert EncodesLines(codec);
    hide Readable, EncodesLines, ProcessOk, Clean, LiveRun, Step;
    SavedSample(codec);
    SampleRun();
    RestartAfterClear(codec, Step(codec, Step(codec, Fresh(0), Apply(SAMPLE_GRANT)), Save(SAMPLE_SNAPSHOT)), 1, 0);
  }

  /** The lease then expires and is dropped, the server crashes, and the lease is back. */
  lemma ExpiredLeaseReturns(codec: Codec)
    requires Readable(codec)
    ensures var p := Step(codec, Restarted(codec), Apply(Input(ExpiryRevoke(1, SAMPLE_DEADLINE), SAMPLE_DEADLINE)));
            && 1 !in p.mem.table.leases
            && RecoverDisk(codec, p.disk, SAMPLE_DEADLINE) == Some(SAMPLE_STATE)
            && 1 in SAMPLE_STATE.table.leases
  {
    hide Readable, ProcessOk, Restarted, RecoverDisk, Clean, FloatExact, ThroughFloat64, Live, Journaled;
    RestartedFacts(codec);
    FloatExactness(1);
    SampleDeadlineIsRounded();
    FloatExactness(SAMPLE_DEADLINE);
    ExpiryRecoveryIff(codec, Restarted(codec), 1, SAMPLE_DEADLINE);
  }
}
