/** Startup: the server object is rebuilt from the snapshot file and the journal. */
module Startup {
  import opened Commands
  import opened StateMachine
  import S = Server
  import Replication
  import opened Wal
  import opened Checkpoint

  /** The snapshot was taken of a coherent state. */
  ghost predicate SnapshotSound(disk: Disk) {
    disk.snap.Some? && S.RestoreState(disk.snap.value.data).Some? ==> Sound(S.RestoreState(disk.snap.value.data).value)
  }

  /** A new server object recovers what the disk says, or startup fails. */
  method RestorePersistentState(codec: Codec, disk: Disk, now: int) returns (ok: bool, server: S.Server)
    requires SnapshotSound(disk)
    ensures fresh(server) && fresh(server.store) && fresh(server.leaseMgr)
    ensures ok <==> RecoverDisk(codec, disk, now).Some?
    ensures ok ==> server.Valid() && server.Current() == RecoverDisk(codec, disk, now).value
  {
    hide Sound, Replay, S.RestoreState, ReadFrom;
    server := new S.Server();
    var offset := 0;
    if disk.snap.Some? {
      var file := disk.snap.value;
      ok := server.LoadSnapshot(file.data);
      if !ok {
        return;
      }
      if file.walID == disk.walID {
        offset := file.offset;
      }
    }
    var records := ReadEntriesFrom(codec, disk.bytes, offset);
    if records.None? {
      ok := false;
      return;
    }
    ok := server.ReplayEntries(records.value, now);
  }

  /** Every disk a run can leave has such a snapshot. */
  lemma DisksAreSound(codec: Codec, p: Process)
    requires DiskOk(codec, p)
    ensures SnapshotSound(p.disk)
  {
    hide DiskOk, LiveRun, S.RestoreState, Sound;
    CoveredState(codec, p);
    InvSound(LiveRun(INITIAL, Safe(p)));
  }

  lemma InvSound(s: State)
    requires Inv(s)
    ensures Sound(s)
  {
  }

  /** The restarted object after any run of the process: the headline theorem about the
      code that runs at startup. */
  method Restart(codec: Codec, ghost walID: int, ghost events: seq<Event>, disk: Disk, now: int)
    returns (ok: bool, server: S.Server)
    requires Readable(codec) && EventsOk(codec, Fresh(walID), events)
    requires TailFaithful(Run(codec, Fresh(walID), events)) && disk == Run(codec, Fresh(walID), events).disk
    ensures ok <==> Replication.KnownTypes(Uncovered(Run(codec, Fresh(walID), events)))
    ensures ok ==> server.Valid() && server.Current() == Expected(Run(codec, Fresh(walID), events))
  {
    hide Readable, EventsOk, TailFaithful, Run, RecoverDisk, ProcessOk, Expected, Replayed;
    CrashSafety(codec, walID, events, now);
    FreshOk(codec, walID);
    RunOk(codec, Fresh(walID), events);
    ProcessDiskOk(codec, Run(codec, Fresh(walID), events));
    DisksAreSound(codec, Run(codec, Fresh(walID), events));
    ok, server := RestorePersistentState(codec, disk, now);
  }
}
