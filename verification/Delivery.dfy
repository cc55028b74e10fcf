/** How committed entries reach the service: the replica walks its log up to the
    commit index and hands each entry to an ordered queue, while snapshots compact the
    log and jump the apply index forward. */
module Delivery {
  import opened Commands
  import opened RaftLog
  import opened LogMerge

  datatype ApplyMsg = CommandMsg(index: int, command: Command) | SnapshotMsg(index: int)

  /** The ordered queue in front of the service, and what has left it. */
  datatype Helper = Helper(lastItem: int, queue: seq<ApplyMsg>, delivered: seq<ApplyMsg>)

  /** The ways the code panics or dereferences nil. */
  datatype Failure = OutOfOrder | Compacted | SnapshotAhead | NilPrevEntry

  datatype Replica = Replica(
    log: Log,
    commit: int,
    applied: int,
    snapIndex: int,
    snapTerm: int,
    helper: Helper,
    failure: Option<Failure>)

  const FRESH := Replica(EMPTY_LOG, 0, -1, 0, 0, Helper(-1, [], []), None)

  // ----- The queue -----

  function Queued(h: Helper, msg: ApplyMsg): Helper {
    h.(queue := h.queue + [msg], lastItem := msg.index)
  }

  /** The queue refuses a command that is not the next one. */
  predicate OutOfTurn(h: Helper, msg: ApplyMsg) {
    msg.CommandMsg? && msg.index > h.lastItem + 1
  }

  function TryApplied(h: Helper, msg: ApplyMsg): Helper
    requires !OutOfTurn(h, msg)
  {
    if msg.index <= h.lastItem then h else Queued(h, msg)
  }

  function Delivered(h: Helper): Helper {
    if h.queue == [] then h
    else h.(queue := h.queue[1..], delivered := h.delivered + [h.queue[0]])
  }

  class ApplyHelper {
    var lastItemIndex: int
    var q: seq<ApplyMsg>
    /** Everything sent on the service's channel so far. */
    var sent: seq<ApplyMsg>

    ghost function State(): Helper
      reads this
    {
      Helper(lastItemIndex, q, sent)
    }

    constructor (lastApplied: int)
      ensures State() == Helper(lastApplied, [], [])
    {
      lastItemIndex := lastApplied;
      q := [];
      sent := [];
    }

    /** False is the panic on a message out of turn. */
    method TryApply(msg: ApplyMsg) returns (ok: bool)
      modifies this
      ensures ok <==> !OutOfTurn(old(State()), msg)
      ensures State() == if ok then TryApplied(old(State()), msg) else old(State())
    {
      if msg.CommandMsg? {
        if msg.index <= lastItemIndex {
          return true;
        }
        if msg.index == lastItemIndex + 1 {
          q := q + [msg];
          lastItemIndex := lastItemIndex + 1;
          return true;
        }
        return false;
      }
      if msg.index <= lastItemIndex {
        return true;
      }
      q := q + [msg];
      lastItemIndex := msg.index;
      return true;
    }

    /** One round of the applier. */
    method Applier()
      modifies this
      ensures State() == Delivered(old(State()))
    {
      if |q| == 0 {
        return;
      }
      var msg := q[0];
      q := q[1..];
      sent := sent + [msg];
    }
  }

  // ----- The replica's steps -----

  predicate MoreToSend(r: Replica) {
    r.failure.None? && r.applied + 1 <= r.commit && r.applied + 1 <= r.log.last
  }

  /** One round of the loop that sends committed entries to the queue. */
  function SendOne(r: Replica): Replica
    requires MoreToSend(r)
  {
    var i := r.applied + 1;
    if i < r.log.first || EntryAt(r.log, i).None? then r.(applied := i, failure := Some(Compacted))
    else
      var msg := CommandMsg(i, EntryAt(r.log, i).value.command);
      if OutOfTurn(r.helper, msg) then r.(applied := i, failure := Some(OutOfOrder))
      else r.(applied := i, helper := TryApplied(r.helper, msg))
  }

  function SendAll(r: Replica): Replica
    decreases r.log.last - r.applied
  {
    if MoreToSend(r) then SendAll(SendOne(r)) else r
  }

  /** The term kept for an index: the snapshot's term right before the log. */
  function TermAt(r: Replica, index: int): int {
    if index == r.log.first - 1 then r.snapTerm
    else if index < r.log.first || index > r.log.last || EntryAt(r.log, index).None? then -1
    else EntryAt(r.log, index).value.term
  }

  function Max(a: int, b: int): int {
    if a > b then a else b
  }

  /** The service has a snapshot up to index; the log before it goes. */
  function Snapshotted(r: Replica, index: int): Replica {
    if index < r.log.first then r
    else if index > r.applied then r.(failure := Some(SnapshotAhead))
    else
      var log := if index + 1 <= r.log.last && index + 1 - r.log.first <= |r.log.entries|
                 then Log(r.log.entries[index + 1 - r.log.first..], index + 1, r.log.last)
                 else Log([], index + 1, index);
      r.(log := log, snapIndex := index, snapTerm := TermAt(r, index), commit := Max(r.commit, index))
  }

  /** A leader's snapshot replaces the log up to index and jumps the queue forward. */
  function Installed(r: Replica, index: int, term: int): Replica {
    if index <= r.snapIndex then r
    else
      var log := if index < r.log.last && 0 <= index + 1 - r.log.first <= |r.log.entries|
                 then Log(r.log.entries[index + 1 - r.log.first..], index + 1, r.log.last)
                 else Log([], index + 1, index);
      r.(log := log, snapIndex := index, snapTerm := term, commit := Max(r.commit, index),
         helper := TryApplied(r.helper, SnapshotMsg(index)),
         applied := Max(r.applied, index))
  }

  function Appended(r: Replica, m: Message): Replica {
    match Check(r.log, m.prev, m.prevTerm)
    case NilEntry => r.(failure := Some(NilPrevEntry))
    case Reject => r
    case Accept =>
      var log := Merge(r.log, m.prev, m.entries);
      r.(log := log, commit := NewCommit(r.commit, m, log))
  }

  function LeaderAppended(r: Replica, e: Entry): Replica {
    r.(log := Log(r.log.entries + [e], r.log.first, r.log.last + 1))
  }

  function LeaderCommitted(r: Replica, index: int): Replica {
    if r.commit <= index && r.log.first <= index <= r.log.last then r.(commit := index) else r
  }

  /** The server's own note of the last applied index, taken from a delivered command. */
  function Acknowledged(r: Replica, index: int): Replica {
    if index > r.applied then r.(applied := index) else r
  }

  datatype Event =
    | Append(m: Message)
    | Start(e: Entry)
    | Commit(index: int)
    | Send
    | Deliver
    | Snapshot(index: int, leader: bool)
    | Install(index: int, term: int)
    | Acknowledge(n: nat)

  function Step(r: Replica, e: Event): Replica {
    if r.failure.Some? then r else
      match e
      case Append(m) => Appended(r, m)
      case Start(entry) => LeaderAppended(r, entry)
      case Commit(index) => LeaderCommitted(r, index)
      case Send => SendAll(r)
      case Deliver => r.(helper := Delivered(r.helper))
      case Snapshot(index, leader) => if leader then Snapshotted(r, index) else r
      case Install(index, term) => Installed(r, index, term)
      case Acknowledge(n) =>
        if n < |r.helper.delivered| && r.helper.delivered[n].CommandMsg?
        then Acknowledged(r, r.helper.delivered[n].index) else r
  }

  function Run(r: Replica, events: seq<Event>): Replica {
    if events == [] then r else Step(Run(r, events[..|events| - 1]), events[|events| - 1])
  }

  // ----- Gapless delivery -----

  /** The messages follow on one another from index from: each command is the next
      index, each snapshot jumps forward. The result is the index reached. */
  function Reached(from: int, msgs: seq<ApplyMsg>): Option<int> {
    if msgs == [] then Some(from)
    else
      var before, msg := Reached(from, msgs[..|msgs| - 1]), msgs[|msgs| - 1];
      if before.None? then None
      else if msg.CommandMsg? && msg.index != before.value + 1 then None
      else if msg.SnapshotMsg? && msg.index <= before.value then None
      else Some(msg.index)
  }

  function Stream(h: Helper): seq<ApplyMsg> {
    h.delivered + h.queue
  }

  predicate HelperOk(h: Helper) {
    Reached(-1, Stream(h)) == Some(h.lastItem)
  }

  ghost predicate Inv(r: Replica) {
    && LogOk(r.log)
    && r.log.first <= r.applied + 1
    && r.log.first <= r.snapIndex + 1
    && r.helper.lastItem == r.applied
    && HelperOk(r.helper)
    && r.failure != Some(OutOfOrder)
    && r.failure != Some(Compacted)
  }

  lemma QueuedOk(h: Helper, msg: ApplyMsg)
    requires HelperOk(h) && msg.index > h.lastItem && !OutOfTurn(h, msg)
    ensures HelperOk(Queued(h, msg))
  {
    var h' := Queued(h, msg);
    assert Stream(h') == Stream(h) + [msg];
    assert Stream(h')[..|Stream(h')| - 1] == Stream(h);
  }

  lemma DeliveredOk(h: Helper)
    requires HelperOk(h)
    ensures HelperOk(Delivered(h)) && Delivered(h).lastItem == h.lastItem
  {
    if h.queue != [] {
      assert h.delivered + [h.queue[0]] + h.queue[1..] == h.delivered + h.queue;
    }
  }

  lemma SendOneOk(r: Replica)
    requires Inv(r) && MoreToSend(r)
    ensures Inv(SendOne(r)) && SendOne(r).failure.None?
  {
    hide HelperOk;
    var i := r.applied + 1;
    QueuedOk(r.helper, CommandMsg(i, EntryAt(r.log, i).value.command));
  }

  lemma {:induction false} SendAllOk(r: Replica)
    requires Inv(r)
    ensures Inv(SendAll(r)) && SendAll(r).failure == r.failure
    decreases r.log.last - r.applied
  {
    hide Inv;
    if MoreToSend(r) {
      SendOneOk(r);
      SendOneAdvances(r);
      SendAllOk(SendOne(r));
    }
  }

  lemma SendOneAdvances(r: Replica)
    requires MoreToSend(r)
    ensures SendOne(r).log == r.log && SendOne(r).applied == r.applied + 1
  {
  }

  lemma SnapshottedOk(r: Replica, index: int)
    requires Inv(r)
    ensures Inv(Snapshotted(r, index))
  {
    hide HelperOk;
  }

  lemma InstalledOk(r: Replica, index: int, term: int)
    requires Inv(r)
    ensures Inv(Installed(r, index, term))
  {
    hide HelperOk;
    if index > r.applied {
      QueuedOk(r.helper, SnapshotMsg(index));
    }
  }

  lemma AppendedOk(r: Replica, m: Message)
    requires Inv(r)
    ensures Inv(Appended(r, m))
  {
    hide HelperOk;
    MergeLogOk(r.log, m.prev, m.entries);
  }

  /** A delivered command is never ahead of the apply index. */
  lemma DeliveredIsApplied(r: Replica, n: nat)
    requires Inv(r) && n < |r.helper.delivered|
    ensures r.helper.delivered[n].index <= r.applied
  {
    var msgs := Stream(r.helper);
    StreamOrder(-1, msgs, n);
    assert msgs[n] == r.helper.delivered[n];
  }

  lemma {:induction false} StreamOrder(from: int, msgs: seq<ApplyMsg>, n: nat)
    requires Reached(from, msgs).Some? && n < |msgs|
    ensures from < msgs[n].index <= Reached(from, msgs).value
    ensures n + 1 < |msgs| ==> msgs[n].index < msgs[n + 1].index
    ensures n + 1 < |msgs| && msgs[n + 1].CommandMsg? ==> msgs[n + 1].index == msgs[n].index + 1
    ensures n == 0 && msgs[0].CommandMsg? ==> msgs[0].index == from + 1
  {
    var last := |msgs| - 1;
    var before := msgs[..last];
    ReachedLast(from, before);
    if n < last {
      StreamOrder(from, before, n);
    }
  }

  lemma {:induction false} ReachedLast(from: int, msgs: seq<ApplyMsg>)
    requires Reached(from, msgs).Some?
    ensures Reached(from, msgs).value == if msgs == [] then from else msgs[|msgs| - 1].index
    ensures from <= Reached(from, msgs).value
  {
    if msgs != [] {
      ReachedLast(from, msgs[..|msgs| - 1]);
    }
  }

  lemma StepOk(r: Replica, e: Event)
    requires Inv(r)
    ensures Inv(Step(r, e))
  {
    if r.failure.None? {
      match e
      case Append(m) => AppendedOk(r, m);
      case Start(entry) => hide HelperOk;
      case Commit(index) => hide HelperOk;
      case Send => SendAllOk(r);
      case Deliver => DeliveredOk(r.helper);
      case Snapshot(index, leader) => SnapshottedOk(r, index);
      case Install(index, term) => InstalledOk(r, index, term);
      case Acknowledge(n) =>
        if n < |r.helper.delivered| { DeliveredIsApplied(r, n); }
    }
  }

  lemma {:induction false} RunOk(r: Replica, events: seq<Event>)
    requires Inv(r)
    ensures Inv(Run(r, events))
  {
    hide Inv, Step;
    if events != [] {
      RunOk(r, events[..|events| - 1]);
      StepOk(Run(r, events[..|events| - 1]), events[|events| - 1]);
    }
  }

  // ----- The theorems -----

  /** In every run the messages delivered and queued follow on one another without gap
      or repetition up to the apply index, the log slice has exactly the entries from
      its first to its last index, and neither the out-of-order panic of the queue nor
      the compacted-index panic of the sender is ever reached. */
  lemma DeliveryIsGapless(events: seq<Event>)
    ensures var r := Run(FRESH, events);
            && Reached(-1, r.helper.delivered + r.helper.queue) == Some(r.applied)
            && r.helper.lastItem == r.applied
            && LogOk(r.log)
            && r.failure != Some(OutOfOrder) && r.failure != Some(Compacted)
  {
    hide Run;
    FreshOk();
    RunOk(FRESH, events);
  }

  lemma FreshOk()
    ensures Inv(FRESH)
  {
    assert Reached(-1, []) == Some(-1);
  }

  /** A run fails exactly when a message points before the compacted log, or when the
      service of a leader snapshots more than was applied. */
  lemma StepFailsIff(r: Replica, e: Event)
    requires Inv(r) && r.failure.None?
    ensures Step(r, e).failure.Some? <==>
              || (e.Append? && 0 < e.m.prev < r.log.first && e.m.prev <= r.log.last)
              || (e.Snapshot? && e.leader && r.log.first <= e.index && e.index > r.applied)
  {
    match e
    case Append(m) => NilEntryIff(r.log, m.prev, m.prevTerm);
    case Send => SendAllOk(r);
    case _ =>
  }

  /** The server's own bookkeeping of the applied index never moves it. */
  lemma AcknowledgeIsIdle(r: Replica, n: nat)
    requires Inv(r)
    ensures Step(r, Acknowledge(n)) == r
  {
    if n < |r.helper.delivered| {
      DeliveredIsApplied(r, n);
    }
  }

  /** The messages for the entries from index lo to index hi. */
  function MessagesFor(l: Log, lo: int, hi: int): seq<ApplyMsg>
    requires LogOk(l) && l.first <= lo && hi <= l.last
    decreases hi - lo
  {
    if lo > hi then [] else [CommandMsg(lo, l.entries[lo - l.first].command)] + MessagesFor(l, lo + 1, hi)
  }

  function SendLimit(r: Replica): int {
    Max(r.applied, if r.commit < r.log.last then r.commit else r.log.last)
  }

  /** The sender queues exactly the committed entries behind the apply index, each
      with its own index and command, in order. */
  lemma {:induction false} SendAllQueues(r: Replica)
    requires Inv(r) && r.failure.None?
    ensures var hi := SendLimit(r);
            SendAll(r) == r.(applied := hi,
                             helper := r.helper.(lastItem := hi,
                               queue := r.helper.queue +
                                 if hi > r.applied then MessagesFor(r.log, r.applied + 1, hi) else []))
    decreases r.log.last - r.applied
  {
    hide HelperOk;
    if MoreToSend(r) {
      var r' := SendOne(r);
      SendOneOk(r);
      SendOneAdvances(r);
      SendAllQueues(r');
      var i, hi := r.applied + 1, SendLimit(r);
      var msg := CommandMsg(i, r.log.entries[i - r.log.first].command);
      assert r'.helper == Queued(r.helper, msg) && SendLimit(r') == hi;
      assert MessagesFor(r.log, i, hi) == [msg] + MessagesFor(r.log, i + 1, hi);
      assert r.helper.queue + [msg] + MessagesFor(r.log, i + 1, hi) == r.helper.queue + MessagesFor(r.log, i, hi);
      if hi == i { assert r.helper.queue + [msg] + [] == r.helper.queue + [msg]; }
    } else {
      assert r.helper.queue + [] == r.helper.queue;
    }
  }

  /** A number of rounds of the applier. */
  function DeliveredTimes(h: Helper, k: nat): Helper {
    if k == 0 then h else Delivered(DeliveredTimes(h, k - 1))
  }

  /** The applier delivers the queue from its head, one message a round. */
  lemma {:induction false} DeliversInOrder(h: Helper, k: nat)
    requires k <= |h.queue|
    ensures DeliveredTimes(h, k) == h.(queue := h.queue[k..], delivered := h.delivered + h.queue[..k])
  {
    if k == 0 {
      assert h.queue[0..] == h.queue && h.delivered + h.queue[..0] == h.delivered;
    } else {
      DeliversInOrder(h, k - 1);
      assert h.queue[k - 1..][1..] == h.queue[k..];
      assert h.delivered + h.queue[..k - 1] + [h.queue[k - 1]] == h.delivered + h.queue[..k];
    }
  }

  /** Compaction keeps exactly the entries behind the index and remembers the index and
      the term of its entry. */
  lemma SnapshottedKeeps(r: Replica, index: int, i: int)
    requires Inv(r) && r.log.first <= index <= r.applied
    ensures var r' := Snapshotted(r, index);
            && r'.log.first == index + 1 && LogOk(r'.log)
            && EntryAt(r'.log, i) == (if i > index then EntryAt(r.log, i) else None)
            && r'.snapIndex == index
            && (EntryAt(r.log, index).Some? ==> r'.snapTerm == EntryAt(r.log, index).value.term)
            && r'.commit == Max(r.commit, index) && r'.applied == r.applied && r'.helper == r.helper
  {
    hide HelperOk;
  }

  /** An installed snapshot keeps exactly the entries behind its index, moves commit and
      apply index up to it, and is queued exactly if it is ahead of what was applied; an
      old one changes nothing. */
  lemma InstalledKeeps(r: Replica, index: int, term: int, i: int)
    requires Inv(r)
    ensures var r' := Installed(r, index, term);
            if index <= r.snapIndex then r' == r
            else && r'.log.first == index + 1 && LogOk(r'.log)
                 && EntryAt(r'.log, i) == (if i > index then EntryAt(r.log, i) else None)
                 && r'.snapIndex == index && r'.snapTerm == term
                 && r'.commit == Max(r.commit, index) && r'.applied == Max(r.applied, index)
                 && Stream(r'.helper) == Stream(r.helper) + if index > r.applied then [SnapshotMsg(index)] else []
  {
    hide HelperOk;
    var r' := Installed(r, index, term);
    if index > r.snapIndex && index > r.applied {
      assert r'.helper == Queued(r.helper, SnapshotMsg(index));
      assert r.helper.delivered + (r.helper.queue + [SnapshotMsg(index)]) == Stream(r.helper) + [SnapshotMsg(index)];
    } else {
      assert Stream(r.helper) + [] == Stream(r.helper);
    }
  }

  /** The replica takes a message as the follower of one leader does. */
  lemma AppendedIsReceive(r: Replica, m: Message)
    requires Check(r.log, m.prev, m.prevTerm) != NilEntry
    ensures var f := Receive(Follower(r.log, r.commit), m);
            Appended(r, m) == r.(log := f.log, commit := f.commit)
  {
  }

  /** A leader's new entry becomes the last one. */
  lemma LeaderAppendedKeeps(r: Replica, e: Entry, i: int)
    requires LogOk(r.log)
    ensures EntryAt(LeaderAppended(r, e).log, i) == if i == r.log.last + 1 then Some(e) else EntryAt(r.log, i)
  {
  }

  /** A leader moves its commit index exactly to indices of its log, and never back. */
  lemma LeaderCommittedMeans(r: Replica, index: int)
    ensures var r' := LeaderCommitted(r, index);
            && r'.(commit := r.commit) == r && r'.commit >= r.commit
            && (r'.commit == index <==> index == r.commit || (index > r.commit && r.log.first <= index <= r.log.last))
            && (r'.commit == index || r'.commit == r.commit)
  {
  }

  // ----- What is delivered -----

  /** Every command in the stream that the log still has is the log's. */
  ghost predicate FromLog(r: Replica) {
    forall n :: 0 <= n < |Stream(r.helper)| ==> InLog(r.log, Stream(r.helper)[n])
  }

  ghost predicate InLog(l: Log, msg: ApplyMsg) {
    msg.CommandMsg? && msg.index >= l.first ==>
      EntryAt(l, msg.index).Some? && EntryAt(l, msg.index).value.command == msg.command
  }

  /** The entries of the message conflict with the log only above index k. */
  ghost predicate ConflictsAbove(l: Log, m: Message, k: int) {
    forall j :: 0 <= j < |m.entries| && m.prev + 1 + j <= k && EntryAt(l, m.prev + 1 + j).Some? ==>
      EntryAt(l, m.prev + 1 + j).value.term == m.entries[j].term
  }

  lemma MergeOneKeeps(l: Log, at: int, e: Entry, i: int)
    requires LogOk(l) && EntryAt(l, i).Some?
    requires at <= i && EntryAt(l, at).Some? ==> EntryAt(l, at).value.term == e.term
    ensures EntryAt(MergeOne(l, at, e), i) == EntryAt(l, i)
  {
  }

  /** Merging such entries leaves the log up to k alone. */
  lemma {:induction false} MergeKeepsBelow(l: Log, m: Message, k: int, n: nat, i: int)
    requires LogOk(l) && ConflictsAbove(l, m, k) && n <= |m.entries| && i <= k && EntryAt(l, i).Some?
    ensures EntryAt(Merge(l, m.prev, m.entries[..n]), i) == EntryAt(l, i)
  {
    hide MergeOne;
    if n > 0 {
      var l', at := Merge(l, m.prev, m.entries[..n - 1]), m.prev + 1 + (n - 1);
      assert m.entries[..n][..n - 1] == m.entries[..n - 1];
      MergeLogOk(l, m.prev, m.entries[..n - 1]);
      MergeKeepsBelow(l, m, k, n - 1, i);
      if at <= i && EntryAt(l', at).Some? {
        MergeKeepsBelow(l, m, k, n - 1, at);
      }
      MergeOneKeeps(l', at, m.entries[n - 1], i);
    }
  }

  /** A message the replica accepts does not contradict what it has applied. */
  ghost predicate EventKeeps(r: Replica, e: Event) {
    e.Append? && Check(r.log, e.m.prev, e.m.prevTerm) == Accept ==> ConflictsAbove(r.log, e.m, r.applied)
  }

  lemma AppendFromLog(r: Replica, m: Message)
    requires Inv(r) && FromLog(r) && EventKeeps(r, Append(m))
    ensures FromLog(Appended(r, m))
  {
    hide Merge, Check, ConflictsAbove;
    var r' := Appended(r, m);
    MergeLogOk(r.log, m.prev, m.entries);
    forall n | 0 <= n < |Stream(r'.helper)| ensures InLog(r'.log, Stream(r'.helper)[n]) {
      var msg := Stream(r.helper)[n];
      StreamOrder(-1, Stream(r.helper), n);
      assert InLog(r.log, msg);
      if Check(r.log, m.prev, m.prevTerm) == Accept && msg.CommandMsg? && msg.index >= r.log.first {
        MergeKeepsBelow(r.log, m, r.applied, |m.entries|, msg.index);
        assert m.entries[..|m.entries|] == m.entries;
      }
    }
  }

  lemma SendOneFromLog(r: Replica)
    requires Inv(r) && FromLog(r) && MoreToSend(r)
    ensures FromLog(SendOne(r))
  {
    hide HelperOk;
    var i := r.applied + 1;
    var msg := CommandMsg(i, EntryAt(r.log, i).value.command);
    assert Stream(SendOne(r).helper) == Stream(r.helper) + [msg];
  }

  lemma {:induction false} SendAllFromLog(r: Replica)
    requires Inv(r) && FromLog(r)
    ensures FromLog(SendAll(r))
    decreases r.log.last - r.applied
  {
    hide Inv, FromLog;
    if MoreToSend(r) {
      SendOneOk(r);
      SendOneAdvances(r);
      SendOneFromLog(r);
      SendAllFromLog(SendOne(r));
    }
  }

  lemma CompactedFromLog(l: Log, l': Log, msg: ApplyMsg)
    requires LogOk(l) && l.first <= l'.first && InLog(l, msg)
    requires if l'.first <= l.last then l' == Log(l.entries[l'.first - l.first..], l'.first, l.last)
             else l'.first > l.last
    ensures InLog(l', msg)
  {
  }

  lemma InstalledFromLog(r: Replica, index: int, term: int)
    requires Inv(r) && FromLog(r)
    ensures FromLog(Installed(r, index, term))
  {
    hide HelperOk;
    var r' := Installed(r, index, term);
    if index > r.applied {
      assert r' != r ==> Stream(r'.helper) == Stream(r.helper) + [SnapshotMsg(index)];
    }
    forall n | 0 <= n < |Stream(r'.helper)| ensures InLog(r'.log, Stream(r'.helper)[n]) {
      if n < |Stream(r.helper)| {
        assert InLog(r.log, Stream(r.helper)[n]);
        if r' != r { CompactedFromLog(r.log, r'.log, Stream(r.helper)[n]); }
      }
    }
  }

  lemma SnapshottedFromLog(r: Replica, index: int)
    requires Inv(r) && FromLog(r)
    ensures FromLog(Snapshotted(r, index))
  {
    hide HelperOk;
    var r' := Snapshotted(r, index);
    forall n | 0 <= n < |Stream(r'.helper)| ensures InLog(r'.log, Stream(r'.helper)[n]) {
      assert InLog(r.log, Stream(r.helper)[n]);
      if r'.log != r.log { CompactedFromLog(r.log, r'.log, Stream(r.helper)[n]); }
    }
  }

  lemma StartFromLog(r: Replica, e: Entry)
    requires Inv(r) && FromLog(r)
    ensures FromLog(LeaderAppended(r, e))
  {
    hide HelperOk;
    var r' := LeaderAppended(r, e);
    forall n | 0 <= n < |Stream(r'.helper)| ensures InLog(r'.log, Stream(r'.helper)[n]) {
      assert InLog(r.log, Stream(r.helper)[n]);
    }
  }

  lemma StepFromLog(r: Replica, e: Event)
    requires Inv(r) && FromLog(r) && EventKeeps(r, e)
    ensures FromLog(Step(r, e))
  {
    hide Inv, FromLog, EventKeeps;
    if r.failure.None? {
      match e
      case Append(m) => AppendFromLog(r, m);
      case Start(entry) => StartFromLog(r, entry);
      case Commit(index) => SameStream(r, Step(r, e));
      case Send => SendAllFromLog(r);
      case Deliver => DeliveredStream(r.helper); SameStream(r, Step(r, e));
      case Snapshot(index, leader) => SnapshottedFromLog(r, index);
      case Install(index, term) => InstalledFromLog(r, index, term);
      case Acknowledge(n) => AcknowledgeIsIdle(r, n);
    }
  }

  lemma SameStream(r: Replica, r': Replica)
    requires FromLog(r) && r'.log == r.log && Stream(r'.helper) == Stream(r.helper)
    ensures FromLog(r')
  {
  }

  lemma DeliveredStream(h: Helper)
    ensures Stream(Delivered(h)) == Stream(h)
  {
    if h.queue != [] {
      assert h.delivered + [h.queue[0]] + h.queue[1..] == h.delivered + h.queue;
    }
  }

  ghost predicate EventsKeep(r: Replica, events: seq<Event>) {
    forall j :: 0 <= j < |events| ==> EventKeeps(Run(r, events[..j]), events[j])
  }

  lemma {:induction false} RunFromLog(r: Replica, events: seq<Event>)
    requires Inv(r) && FromLog(r) && EventsKeep(r, events)
    ensures FromLog(Run(r, events))
  {
    hide Inv, FromLog, Step, EventKeeps;
    if events != [] {
      var n := |events| - 1;
      assert forall j :: 0 <= j < n ==> events[..n][..j] == events[..j];
      RunFromLog(r, events[..n]);
      RunOk(r, events[..n]);
      StepFromLog(Run(r, events[..n]), events[n]);
    }
  }

  /** In every run whose accepted messages never contradict what has been applied, each
      command delivered or queued is the log's own command at its index, as long as the
      log still has it. */
  lemma DeliveredIsTheLog(events: seq<Event>)
    requires EventsKeep(FRESH, events)
    ensures FromLog(Run(FRESH, events))
  {
    hide *;
    FreshOk();
    FreshFromLog();
    RunFromLog(FRESH, events);
  }

  lemma FreshFromLog()
    ensures FromLog(FRESH)
  {
  }

  // ----- The object -----

  class RaftReplica {
    var entries: seq<Entry>
    var firstLogIndex: int
    var lastLogIndex: int
    var commitIndex: int
    var lastApplied: int
    var snapshotIndex: int
    var snapshotTerm: int
    var failure: Option<Failure>
    const helper: ApplyHelper

    ghost function State(): Replica
      reads this, helper
    {
      Replica(Log(entries, firstLogIndex, lastLogIndex), commitIndex, lastApplied, snapshotIndex, snapshotTerm,
              helper.State(), failure)
    }

    constructor ()
      ensures State() == FRESH && fresh(helper)
    {
      entries := [];
      firstLogIndex := 0;
      lastLogIndex := -1;
      commitIndex := 0;
      lastApplied := -1;
      snapshotIndex := 0;
      snapshotTerm := 0;
      failure := None;
      helper := new ApplyHelper(-1);
    }

    method GetOneEntry(index: int) returns (entry: Option<Entry>)
      ensures entry == EntryAt(State().log, index)
    {
      var offset := index - firstLogIndex;
      if offset < 0 || offset >= |entries| {
        return None;
      }
      return Some(entries[offset]);
    }

    /** The log part of the append-entries handler; true is the success reply. */
    method HandleAppendEntries(m: Message) returns (success: bool)
      requires Inv(State()) && failure.None?
      modifies this
      ensures State() == Appended(old(State()), m)
      ensures success <==> Check(old(State()).log, m.prev, m.prevTerm) == Accept
    {
      if m.prev > 0 {
        if lastLogIndex < m.prev {
          return false;
        }
        var entry := GetOneEntry(m.prev);
        if entry.None? {
          failure := Some(NilPrevEntry);
          return false;
        }
        if entry.value.term != m.prevTerm {
          return false;
        }
      }
      MergeEntries(m.prev, m.entries);
      if m.commit > commitIndex {
        commitIndex := if m.commit < lastLogIndex then m.commit else lastLogIndex;
      }
      return true;
    }

    /** The merge loop. */
    method MergeEntries(prev: int, es: seq<Entry>)
      requires LogOk(State().log)
      modifies this`entries, this`lastLogIndex
      ensures State().log == Merge(old(State()).log, prev, es)
    {
      ghost var l := State().log;
      for i := 0 to |es|
        invariant State().log == Merge(l, prev, es[..i]) && LogOk(State().log)
      {
        assert es[..i + 1][..i] == es[..i];
        var idx := prev + 1 + i;
        if idx < firstLogIndex {
        } else if idx <= lastLogIndex {
          if entries[idx - firstLogIndex].term != es[i].term {
            entries := entries[..idx - firstLogIndex];
            lastLogIndex := idx - 1;
            entries := entries + [es[i]];
            lastLogIndex := lastLogIndex + 1;
          }
        } else {
          entries := entries + [es[i]];
          lastLogIndex := lastLogIndex + 1;
        }
      }
      assert es[..|es|] == es;
    }

    /** The loop that hands committed entries to the queue. */
    method SendCommitted()
      requires Inv(State()) && failure.None?
      modifies this, helper
      ensures State() == SendAll(old(State()))
    {
      hide Inv, SendOne;
      ghost var r := State();
      while lastApplied + 1 <= commitIndex && lastApplied + 1 <= lastLogIndex
        invariant Inv(State()) && failure.None? && SendAll(State()) == SendAll(r)
        decreases lastLogIndex - lastApplied
      {
        SendOneOk(State());
        SendOneAdvances(State());
        SendNext();
      }
    }

    method SendNext()
      requires Inv(State()) && MoreToSend(State())
      modifies this`lastApplied, helper
      ensures State() == SendOne(old(State()))
    {
      hide HelperOk;
      var i := lastApplied + 1;
      lastApplied := lastApplied + 1;
      if i < firstLogIndex {
        assert false;
      }
      var _ := helper.TryApply(CommandMsg(i, entries[i - firstLogIndex].command));
    }

    method RequestInstallSnapshot(index: int, term: int)
      requires Inv(State()) && failure.None?
      modifies this, helper
      ensures State() == Installed(old(State()), index, term)
    {
      if index > snapshotIndex {
        snapshotIndex := index;
        snapshotTerm := term;
        if index >= lastLogIndex {
          entries := [];
          lastLogIndex := index;
        } else {
          entries := entries[index + 1 - firstLogIndex..];
        }
        firstLogIndex := index + 1;
        if index > lastApplied {
          var _ := helper.TryApply(SnapshotMsg(index));
          lastApplied := index;
        }
        commitIndex := Max(commitIndex, index);
      }
    }

    /** Only a leader compacts on its own. */
    method TakeSnapshot(index: int, isLeader: bool)
      requires Inv(State()) && failure.None?
      modifies this
      ensures State() == if isLeader then Snapshotted(old(State()), index) else old(State())
    {
      if !isLeader {
        return;
      }
      if firstLogIndex <= index {
        if index > lastApplied {
          failure := Some(SnapshotAhead);
          return;
        }
        snapshotIndex := index;
        snapshotTerm := if index > lastLogIndex then -1 else entries[index - firstLogIndex].term;
        var newFirst := index + 1;
        if newFirst <= lastLogIndex {
          entries := entries[newFirst - firstLogIndex..];
        } else {
          lastLogIndex := newFirst - 1;
          entries := [];
        }
        firstLogIndex := newFirst;
        commitIndex := Max(commitIndex, index);
        lastApplied := Max(lastApplied, index);
      }
    }
  }
}
