/** A follower and one leader: messages from the leader may be repeated, delayed and
    reordered, and the part of the follower's log that agrees with the leader's never
    shrinks (section 5.3 of the Raft paper). */
module LogMerge {
  import opened Commands
  import opened RaftLog

  datatype Message = Message(prev: int, prevTerm: int, entries: seq<Entry>, commit: int)

  /** The handler on the log: an unaccepted message leaves it alone. */
  function Handle(l: Log, m: Message): Log {
    if Check(l, m.prev, m.prevTerm) == Accept then Merge(l, m.prev, m.entries) else l
  }

  function HandleAll(l: Log, ms: seq<Message>): Log {
    if ms == [] then l else Handle(HandleAll(l, ms[..|ms| - 1]), ms[|ms| - 1])
  }

  /** The index of the last entry the message carries or refers to, plus one. */
  function Reach(m: Message): int {
    m.prev + 1 + |m.entries|
  }

  /** The entries of the message were cut out of the leader's log. */
  ghost predicate CutFrom(m: Message, leader: seq<Entry>) {
    && -1 <= m.prev
    && forall j :: 0 <= j < |m.entries| ==>
         m.prev + 1 + j < |leader| && m.entries[j] == leader[m.prev + 1 + j]
  }

  /** The whole message, its reference entry included, was cut out of the leader's log. */
  ghost predicate FromLeader(m: Message, leader: seq<Entry>) {
    && -1 <= m.prev
    && Reach(m) <= |leader|
    && (forall j :: 0 <= j < |m.entries| ==> m.entries[j] == leader[m.prev + 1 + j])
    && (m.prev >= 0 ==> m.prevTerm == leader[m.prev].term)
  }

  /** The two logs are the same up to index k. */
  predicate Agree(f: seq<Entry>, leader: seq<Entry>, k: int) {
    0 <= k <= |f| && k <= |leader| && f[..k] == leader[..k]
  }

  /** Entries with the same index and term sit on the same prefix. */
  ghost predicate LogMatching(f: seq<Entry>, leader: seq<Entry>) {
    forall i :: 0 <= i < |f| && i < |leader| && f[i].term == leader[i].term ==> Agree(f, leader, i + 1)
  }

  function Common(f: seq<Entry>, leader: seq<Entry>): (n: nat)
    ensures n <= |f| && n <= |leader|
  {
    if f == [] || leader == [] || f[0] != leader[0] then 0 else 1 + Common(f[1..], leader[1..])
  }

  lemma {:induction false} CommonIsLongest(f: seq<Entry>, leader: seq<Entry>, k: nat)
    ensures Agree(f, leader, k) <==> k <= Common(f, leader)
  {
    if 0 < k <= |f| && k <= |leader| {
      assert f[..k] == [f[0]] + f[1..][..k - 1];
      assert leader[..k] == [leader[0]] + leader[1..][..k - 1];
      if f[0] == leader[0] {
        CommonIsLongest(f[1..], leader[1..], k - 1);
      }
    }
  }

  /** The one case in which the handler accepts a message the paper rejects. */
  predicate Unchecked(l: Log, m: Message) {
    m.prev == 0 && (l.entries == [] || l.entries[0].term != m.prevTerm)
  }

  lemma SentEntry(m: Message, leader: seq<Entry>, j: nat)
    requires FromLeader(m, leader) && j < |m.entries|
    ensures m.entries[j] == leader[m.prev + 1 + j]
  {
  }

  /** What matches by term agrees with the leader, entry by entry. */
  lemma MatchedAgrees(f: seq<Entry>, leader: seq<Entry>, m: Message, n: nat)
    requires LogMatching(f, leader) && FromLeader(m, leader) && RaftAccepts(f, m.prev, m.prevTerm)
    requires n <= MatchLength(f, m.prev + 1, m.entries)
    ensures Agree(f, leader, m.prev + 1 + n)
  {
    hide MatchLength;
    if n > 0 {
      MatchedAt(f, m.prev + 1, m.entries, n - 1);
      SentEntry(m, leader, n - 1);
    }
  }

  lemma PrefixMatches(leader: seq<Entry>, k: nat)
    requires k <= |leader|
    ensures LogMatching(leader[..k], leader) && Common(leader[..k], leader) == k
  {
    var f := leader[..k];
    forall i | 0 <= i < |f| && i < |leader| && f[i].term == leader[i].term ensures Agree(f, leader, i + 1) {
      PrefixAgrees(leader, k, i + 1);
    }
    PrefixAgrees(leader, k, k);
    CommonIsLongest(leader[..k], leader, k);
  }

  lemma PrefixAgrees(leader: seq<Entry>, k: nat, j: nat)
    requires j <= k <= |leader|
    ensures Agree(leader[..k], leader, j)
  {
    assert leader[..k][..j] == leader[..j];
  }

  lemma Spliced(f: seq<Entry>, leader: seq<Entry>, m: Message, n: nat)
    requires FromLeader(m, leader) && n <= |m.entries| && Agree(f, leader, m.prev + 1 + n)
    ensures f[..m.prev + 1 + n] + m.entries[n..] == leader[..Reach(m)]
  {
    hide FromLeader;
    ReachNonNegative(m, leader);
    var whole := f[..m.prev + 1 + n] + m.entries[n..];
    assert |whole| == Reach(m);
    forall i | 0 <= i < |whole| ensures i < |leader| && whole[i] == leader[i] {
      if i < m.prev + 1 + n {
        assert f[..m.prev + 1 + n][i] == leader[..m.prev + 1 + n][i];
      } else {
        SentEntry(m, leader, i - m.prev - 1);
      }
    }
  }

  /** A conflicting or missing entry ends the agreement. */
  lemma ConflictBounds(f: seq<Entry>, leader: seq<Entry>, at: nat)
    requires at <= |f| && at < |leader|
    requires at < |f| ==> f[at].term != leader[at].term
    ensures Common(f, leader) <= at
  {
    CommonIsLongest(f, leader, at + 1);
    if at < |f| {
      assert f[..at + 1][at] == f[at] && leader[..at + 1][at] == leader[at];
    }
  }

  lemma RaftAppendAgrees(f: seq<Entry>, leader: seq<Entry>, m: Message)
    requires LogMatching(f, leader) && FromLeader(m, leader) && RaftAccepts(f, m.prev, m.prevTerm)
    ensures var f' := RaftAppend(f, m.prev, m.entries);
            && LogMatching(f', leader)
            && Common(f', leader) >= Common(f, leader)
            && Common(f', leader) >= Reach(m)
            && (f' == f || f' == leader[..Reach(m)])
  {
    AcceptedIndex(f, m);
    ReachNonNegative(m, leader);
    hide *;
    var n := MatchLength(f, m.prev + 1, m.entries);
    if n == |m.entries| {
      AllMatched(f, leader, m);
    } else {
      SomeUnmatched(f, leader, m, n);
    }
  }

  lemma AllMatched(f: seq<Entry>, leader: seq<Entry>, m: Message)
    requires LogMatching(f, leader) && FromLeader(m, leader) && RaftAccepts(f, m.prev, m.prevTerm)
    requires MatchLength(f, m.prev + 1, m.entries) == |m.entries|
    ensures RaftAppend(f, m.prev, m.entries) == f
    ensures Common(f, leader) >= Reach(m)
  {
    MatchedAgrees(f, leader, m, |m.entries|);
    hide MatchLength, LogMatching, Common, Agree;
    CommonIsLongest(f, leader, Reach(m));
  }

  lemma SomeUnmatched(f: seq<Entry>, leader: seq<Entry>, m: Message, n: nat)
    requires LogMatching(f, leader) && FromLeader(m, leader) && RaftAccepts(f, m.prev, m.prevTerm)
    requires n == MatchLength(f, m.prev + 1, m.entries) < |m.entries|
    ensures RaftAppend(f, m.prev, m.entries) == leader[..Reach(m)]
    ensures LogMatching(leader[..Reach(m)], leader)
    ensures Common(f, leader) <= Common(leader[..Reach(m)], leader) == Reach(m)
  {
    hide MatchLength, LogMatching, Common, Agree;
    MatchedAgrees(f, leader, m, n);
    MatchedAt(f, m.prev + 1, m.entries, n);
    SentEntry(m, leader, n);
    AgreeBounds(f, leader, m.prev + 1 + n);
    Spliced(f, leader, m, n);
    PrefixMatches(leader, Reach(m));
    ConflictBounds(f, leader, m.prev + 1 + n);
  }

  lemma AcceptedIndex(f: seq<Entry>, m: Message)
    requires RaftAccepts(f, m.prev, m.prevTerm)
    ensures -1 <= m.prev < |f|
  {
  }

  lemma RaftAppendCases(log: seq<Entry>, prev: int, es: seq<Entry>)
    requires -1 <= prev < |log|
    ensures var n := MatchLength(log, prev + 1, es);
            RaftAppend(log, prev, es) == if n == |es| then log else log[..prev + 1 + n] + es[n..]
  {
    hide MatchLength;
  }

  lemma AgreeBounds(f: seq<Entry>, leader: seq<Entry>, k: int)
    requires Agree(f, leader, k)
    ensures 0 <= k <= |f| && k <= |leader|
  {
  }

  /** One checked message: the logs go on matching, and after an accepted message they
      agree to the end of what the message carried. */
  lemma HandleAgrees(l: Log, m: Message, leader: seq<Entry>)
    requires Whole(l) && LogMatching(l.entries, leader) && FromLeader(m, leader) && !Unchecked(l, m)
    ensures var l' := Handle(l, m);
            && Whole(l') && LogMatching(l'.entries, leader)
            && (Check(l, m.prev, m.prevTerm) == Accept ==> Common(l'.entries, leader) >= Reach(m))
            && (l' == l || l'.entries == leader[..Reach(m)])
  {
    hide LogMatching, Common, Merge, RaftAppend, FromLeader, Check, RaftAccepts;
    if Check(l, m.prev, m.prevTerm) == Accept {
      AcceptedInRange(l, m, leader);
      MergeIsRaftAppend(l, m.prev, m.entries);
      RaftAppendAgrees(l.entries, leader, m);
    }
  }

  lemma AcceptedInRange(l: Log, m: Message, leader: seq<Entry>)
    requires Whole(l) && FromLeader(m, leader) && !Unchecked(l, m) && Check(l, m.prev, m.prevTerm) == Accept
    ensures -1 <= m.prev <= l.last && RaftAccepts(l.entries, m.prev, m.prevTerm)
  {
    CheckIsRaftAcceptsIff(l, m.prev, m.prevTerm);
  }

  /** Whatever the follower's log and whatever the message refers to: entries cut from
      the leader's log never shrink the part that agrees with it. */
  lemma HandleNeverShrinks(l: Log, m: Message, leader: seq<Entry>)
    requires Whole(l) && CutFrom(m, leader)
    ensures Whole(Handle(l, m))
    ensures Common(Handle(l, m).entries, leader) >= Common(l.entries, leader)
  {
    hide Merge, RaftAppend, MatchLength, Common;
    if Check(l, m.prev, m.prevTerm) == Accept {
      if m.prev <= l.last {
        MergeIsRaftAppend(l, m.prev, m.entries);
        RaftAppendNeverShrinks(l.entries, m, leader);
      } else {
        MergeIntoEmpty(m.entries);
        CommonOfNothing(leader);
      }
    }
  }

  lemma CommonOfNothing(leader: seq<Entry>)
    ensures Common([], leader) == 0
  {
  }

  lemma CutEntry(m: Message, leader: seq<Entry>, j: nat)
    requires CutFrom(m, leader) && j < |m.entries|
    ensures m.prev + 1 + j < |leader| && m.entries[j] == leader[m.prev + 1 + j]
  {
    var e := m.entries[j];
  }

  /** Truncation starts at an entry that conflicts, and the agreeing part ends before it. */
  lemma RaftAppendNeverShrinks(f: seq<Entry>, m: Message, leader: seq<Entry>)
    requires m.prev < |f| && CutFrom(m, leader)
    ensures Common(RaftAppend(f, m.prev, m.entries), leader) >= Common(f, leader)
  {
    hide MatchLength, Common;
    var n := MatchLength(f, m.prev + 1, m.entries);
    if n < |m.entries| {
      var k, f' := Common(f, leader), RaftAppend(f, m.prev, m.entries);
      MatchedAt(f, m.prev + 1, m.entries, n);
      CutEntry(m, leader, n);
      ConflictBounds(f, leader, m.prev + 1 + n);
      CommonIsLongest(f, leader, k);
      assert f'[..k] == f[..k];
      CommonIsLongest(f', leader, k);
    }
  }

  ghost predicate AllCutFrom(ms: seq<Message>, leader: seq<Entry>) {
    forall j :: 0 <= j < |ms| ==> CutFrom(ms[j], leader)
  }

  /** Any sequence of messages from one leader, heartbeats included, repeated, stale or
      out of order, on any uncompacted log. */
  lemma {:induction false} AgreementNeverShrinks(l: Log, ms: seq<Message>, leader: seq<Entry>)
    requires Whole(l) && AllCutFrom(ms, leader)
    ensures Whole(HandleAll(l, ms))
    ensures Common(HandleAll(l, ms).entries, leader) >= Common(l.entries, leader)
  {
    hide Whole, Common, Handle, CutFrom;
    if ms != [] {
      var n := |ms| - 1;
      AgreementNeverShrinks(l, ms[..n], leader);
      HandleNeverShrinks(HandleAll(l, ms[..n]), ms[n], leader);
    }
  }

  ghost predicate AllFromLeader(l: Log, ms: seq<Message>, leader: seq<Entry>) {
    forall j :: 0 <= j < |ms| ==> FromLeader(ms[j], leader) && !Unchecked(HandleAll(l, ms[..j]), ms[j])
  }

  /** Log matching survives any sequence of checked messages from one leader. */
  lemma {:induction false} MatchingIsKept(l: Log, ms: seq<Message>, leader: seq<Entry>)
    requires Whole(l) && LogMatching(l.entries, leader) && AllFromLeader(l, ms, leader)
    ensures Whole(HandleAll(l, ms)) && LogMatching(HandleAll(l, ms).entries, leader)
  {
    hide LogMatching, Handle, FromLeader, Unchecked;
    if ms != [] {
      var n := |ms| - 1;
      assert forall j :: 0 <= j < n ==> ms[..n][..j] == ms[..j];
      MatchingIsKept(l, ms[..n], leader);
      HandleAgrees(HandleAll(l, ms[..n]), ms[n], leader);
    }
  }

  /** What one accepted message brought into agreement stays there, whatever the leader's
      later, repeated or delayed messages are. */
  lemma AcceptedStaysAgreed(l: Log, ms: seq<Message>, leader: seq<Entry>, n: nat)
    requires Whole(l) && LogMatching(l.entries, leader) && AllFromLeader(l, ms, leader)
    requires n < |ms| && Check(HandleAll(l, ms[..n]), ms[n].prev, ms[n].prevTerm) == Accept
    ensures Common(HandleAll(l, ms).entries, leader) >= Reach(ms[n])
  {
    hide LogMatching, Common, Check, Whole, Unchecked, Handle;
    var before := HandleAll(l, ms[..n]);
    assert forall j :: 0 <= j < n ==> ms[..n][..j] == ms[..j];
    MatchingIsKept(l, ms[..n], leader);
    HandleAgrees(before, ms[n], leader);
    assert ms[..n + 1][..n] == ms[..n];
    HandleSplit(l, ms, n + 1);
    AgreementNeverShrinks(HandleAll(l, ms[..n + 1]), ms[n + 1..], leader);
  }

  lemma {:induction false} HandleSplit(l: Log, ms: seq<Message>, k: nat)
    requires k <= |ms|
    ensures HandleAll(l, ms) == HandleAll(HandleAll(l, ms[..k]), ms[k..])
  {
    hide Handle;
    var n := |ms| - 1;
    if k == |ms| {
      assert ms[..k] == ms;
    } else {
      HandleSplit(l, ms[..n], k);
      assert ms[..n][..k] == ms[..k] && ms[..n][k..] == ms[k..][..n - k];
    }
  }

  /** The unchecked entry at index 0 is exactly what breaks agreement: after an
      accepted message the follower has everything up to the message's end if and only
      if the message did not slip through that gap. */
  lemma AcceptedAgreesIff(l: Log, m: Message, leader: seq<Entry>)
    requires Whole(l) && LogMatching(l.entries, leader) && FromLeader(m, leader)
    requires Check(l, m.prev, m.prevTerm) == Accept
    ensures Agree(Handle(l, m).entries, leader, Reach(m)) <==> !Unchecked(l, m)
  {
    var f := Handle(l, m).entries;
    if !Unchecked(l, m) {
      hide LogMatching, Common, Agree, Handle, Check, FromLeader;
      HandleAgrees(l, m, leader);
      ReachNonNegative(m, leader);
      CommonIsLongest(f, leader, Reach(m));
    } else if l.entries == [] {
      hide LogMatching, Merge;
      MergeIntoEmpty(m.entries);
    } else {
      hide LogMatching, Merge, MatchLength;
      MergeIsRaftAppend(l, 0, m.entries);
      FirstEntryStays(l.entries, m.entries);
      AgreeAtFirst(f, leader, Reach(m));
    }
  }

  lemma ReachNonNegative(m: Message, leader: seq<Entry>)
    requires FromLeader(m, leader)
    ensures 0 <= Reach(m) <= |leader|
  {
  }

  lemma AgreeAtFirst(f: seq<Entry>, leader: seq<Entry>, k: int)
    requires f != [] && leader != [] && k > 0
    ensures Agree(f, leader, k) ==> f[0] == leader[0]
  {
    if Agree(f, leader, k) {
      assert f[..k][0] == leader[..k][0];
    }
  }

  lemma FirstEntryStays(log: seq<Entry>, es: seq<Entry>)
    requires log != []
    ensures RaftAppend(log, 0, es) != [] && RaftAppend(log, 0, es)[0] == log[0]
  {
  }

  /** Into an empty log, entries meant to follow index 0 land one place too low. */
  lemma {:induction false} MergeIntoEmpty(es: seq<Entry>)
    ensures Merge(Log([], 0, -1), 0, es) == Log(es, 0, |es| - 1)
  {
    if es != [] {
      MergeIntoEmpty(es[..|es| - 1]);
      assert es == es[..|es| - 1] + [es[|es| - 1]];
    }
  }

  // ----- The commit index -----

  /** The follower's commit rule: it goes by its own last index. */
  function NewCommit(commit: int, m: Message, l: Log): int {
    if m.commit > commit then (if m.commit < l.last then m.commit else l.last) else commit
  }

  /** A higher commit index is taken as far as the log goes. */
  lemma NewCommitMeans(commit: int, m: Message, l: Log, i: int)
    ensures m.commit <= commit ==> NewCommit(commit, m, l) == commit
    ensures m.commit > commit ==> (i <= NewCommit(commit, m, l) <==> i <= m.commit && i <= l.last)
  {
  }

  /** How much of the log counts as committed; the index may be ahead of the log, as it
      is at boot, when it is 0 and the log is empty. */
  function CommittedLength(commit: int, l: Log): nat {
    if commit < 0 then 0 else if commit < |l.entries| then commit + 1 else |l.entries|
  }

  /** Every committed entry of the follower is the leader's. */
  predicate CommitAgrees(commit: int, l: Log, leader: seq<Entry>) {
    Agree(l.entries, leader, CommittedLength(commit, l))
  }

  /** The commit index goes down exactly when it is ahead of the log and a message names
      a higher one. */
  lemma CommitDropsIff(commit: int, m: Message, l: Log)
    ensures NewCommit(commit, m, l) < commit <==> m.commit > commit > l.last
  {
  }

  lemma CommitStaysInStep(l: Log, m: Message, leader: seq<Entry>, commit: int)
    requires Whole(l) && LogMatching(l.entries, leader) && FromLeader(m, leader) && !Unchecked(l, m)
    requires Check(l, m.prev, m.prevTerm) == Accept && CommitAgrees(commit, l, leader)
    requires m.commit < Reach(m) || m.commit <= commit
    ensures CommitAgrees(NewCommit(commit, m, Handle(l, m)), Handle(l, m), leader)
  {
    hide LogMatching, Handle, Common, Agree, FromLeader, Unchecked, Check;
    HandleAgrees(l, m, leader);
    ReachNonNegative(m, leader);
    var l' := Handle(l, m);
    var k := CommittedLength(NewCommit(commit, m, l'), l');
    if l' != l {
      PrefixMatches(leader, Reach(m));
    }
    CommonIsLongest(l'.entries, leader, k);
  }

  /** A follower that agrees up to the end of the message and has one entry more, which
      is not the leader's. */
  ghost function Stale(m: Message, leader: seq<Entry>): Log
    requires FromLeader(m, leader)
  {
    var k := Reach(m);
    var term := if k < |leader| then leader[k].term + 1 else 0;
    Log(leader[..k] + [Entry(term, DeleteCommand("", 0))], 0, k)
  }

  lemma StaleFacts(m: Message, leader: seq<Entry>)
    requires FromLeader(m, leader)
    ensures var l := Stale(m, leader);
            && Whole(l) && LogMatching(l.entries, leader) && !Unchecked(l, m)
            && Check(l, m.prev, m.prevTerm) == Accept
            && RaftAccepts(l.entries, m.prev, m.prevTerm)
            && -1 <= m.prev <= l.last && m.prev < |l.entries|
            && !Agree(l.entries, leader, Reach(m) + 1)
  {
    var l, k := Stale(m, leader), Reach(m);
    assert l.entries[..k] == leader[..k];
    forall i | 0 <= i < |l.entries| && i < |leader| && l.entries[i].term == leader[i].term
      ensures Agree(l.entries, leader, i + 1)
    {
      assert i < k;
      assert l.entries[..i + 1] == l.entries[..k][..i + 1] == leader[..i + 1];
    }
    hide LogMatching;
    assert m.prev >= 0 ==> l.entries[m.prev] == leader[m.prev];
    if k < |leader| {
      assert l.entries[..k + 1][k] != leader[..k + 1][k];
    }
  }

  lemma StaleAgreesBelow(m: Message, leader: seq<Entry>, k: nat)
    requires FromLeader(m, leader) && k <= Reach(m)
    ensures Agree(Stale(m, leader).entries, leader, k)
  {
    assert Stale(m, leader).entries[..k] == leader[..Reach(m)][..k] == leader[..k];
  }

  /** Such a follower takes the message and keeps its stale entry. */
  lemma HandleKeepsStale(m: Message, leader: seq<Entry>)
    requires FromLeader(m, leader)
    ensures Handle(Stale(m, leader), m) == Stale(m, leader)
  {
    hide *;
    var l := Stale(m, leader);
    StaleFacts(m, leader);
    MergeIsRaftAppend(l, m.prev, m.entries);
    RaftAppendCases(l.entries, m.prev, m.entries);
    StaleMatchesAll(m, leader);
    WholeByEntries(l, Merge(l, m.prev, m.entries));
    HandleAccepted(l, m);
  }

  lemma WholeByEntries(a: Log, b: Log)
    requires Whole(a) && Whole(b) && a.entries == b.entries
    ensures a == b
  {
  }

  lemma HandleAccepted(l: Log, m: Message)
    requires Check(l, m.prev, m.prevTerm) == Accept
    ensures Handle(l, m) == Merge(l, m.prev, m.entries)
  {
  }

  lemma StaleMatchesAll(m: Message, leader: seq<Entry>)
    requires FromLeader(m, leader)
    ensures MatchLength(Stale(m, leader).entries, m.prev + 1, m.entries) == |m.entries|
  {
    var f := Stale(m, leader).entries;
    var n := MatchLength(f, m.prev + 1, m.entries);
    hide MatchLength;
    if n < |m.entries| {
      MatchedAt(f, m.prev + 1, m.entries, n);
      SentEntry(m, leader, n);
    }
  }

  /** The stale entry is committed by a message that does not reach its own commit
      index, in particular from the boot value 0 of the commit index. */
  lemma StaleCommits(m: Message, leader: seq<Entry>, commit: int)
    requires FromLeader(m, leader) && m.commit >= Reach(m) > commit
    ensures var l := Stale(m, leader);
            && Whole(l) && LogMatching(l.entries, leader) && !Unchecked(l, m)
            && Check(l, m.prev, m.prevTerm) == Accept && CommitAgrees(commit, l, leader)
            && !CommitAgrees(NewCommit(commit, m, Handle(l, m)), Handle(l, m), leader)
  {
    hide LogMatching, Agree, Handle, Check, Unchecked, Whole;
    StaleFacts(m, leader);
    HandleKeepsStale(m, leader);
    StaleAgreesBelow(m, leader, CommittedLength(commit, Stale(m, leader)));
  }

  /** The follower bounds the commit index by its own last index and not, as the paper
      does, by the last entry of the message. For a follower whose commit index may be
      anything from a value below the message's end on, that is harmless exactly when
      the message's commit index lies within what the message reaches. */
  lemma CommitRuleSafeIff(m: Message, leader: seq<Entry>, least: int)
    requires FromLeader(m, leader) && least < Reach(m)
    ensures m.commit < Reach(m) <==>
              forall l, commit ::
                && least <= commit && Whole(l) && LogMatching(l.entries, leader) && !Unchecked(l, m)
                && Check(l, m.prev, m.prevTerm) == Accept && CommitAgrees(commit, l, leader) ==>
                CommitAgrees(NewCommit(commit, m, Handle(l, m)), Handle(l, m), leader)
  {
    hide *;
    if m.commit < Reach(m) {
      forall l, commit |
        && least <= commit && Whole(l) && LogMatching(l.entries, leader) && !Unchecked(l, m)
        && Check(l, m.prev, m.prevTerm) == Accept && CommitAgrees(commit, l, leader)
        ensures CommitAgrees(NewCommit(commit, m, Handle(l, m)), Handle(l, m), leader)
      {
        CommitStaysInStep(l, m, leader, commit);
      }
    } else {
      StaleCommits(m, leader, least);
    }
  }

  // ----- The sender -----

  /** The message a leader builds for a follower whose next index it tracks. */
  function Built(l: Log, nextIndex: int, snapTerm: int, commit: int): Message {
    var prev := if l.last < nextIndex - 1 then l.last else nextIndex - 1;
    var prevTerm := if prev == l.first - 1 then snapTerm
                    else if EntryAt(l, prev).None? then -1
                    else EntryAt(l, prev).value.term;
    Message(prev, prevTerm, EntriesFrom(l, prev + 1), commit)
  }

  /** A leader with an uncompacted log always sends its whole rest from the next index
      on, so the messages it builds satisfy what the follower's commit rule needs exactly when its commit index
      is within its log; at boot it is not. */
  lemma BuiltIsFromLeader(l: Log, nextIndex: int, snapTerm: int, commit: int)
    requires Whole(l) && 0 <= nextIndex
    ensures var m := Built(l, nextIndex, snapTerm, commit);
            && FromLeader(m, l.entries) && Reach(m) == |l.entries|
            && m.entries == (if nextIndex <= |l.entries| then l.entries[nextIndex..] else [])
            && m.commit == commit && (m.commit < Reach(m) <==> commit <= l.last)
  {
  }

  /** What the leader sends when it has nothing to say: every other field is zero. */
  const HEARTBEAT := Message(0, 0, [], 0)

  /** A heartbeat is always accepted and moves nothing, unless the commit index had
      fallen below zero and there is an entry to commit. */
  lemma HeartbeatIsIdleIff(l: Log, commit: int)
    requires Whole(l) && commit >= -1
    ensures Check(l, HEARTBEAT.prev, HEARTBEAT.prevTerm) == Accept && Handle(l, HEARTBEAT) == l
    ensures NewCommit(commit, HEARTBEAT, l) == commit <==> commit >= 0 || l.entries == []
  {
  }

  // ----- A follower under one leader, from boot -----

  datatype Follower = Follower(log: Log, commit: int)

  const BOOTED := Follower(EMPTY_LOG, 0)

  function Receive(f: Follower, m: Message): Follower {
    if Check(f.log, m.prev, m.prevTerm) != Accept then f
    else Follower(Handle(f.log, m), NewCommit(f.commit, m, Handle(f.log, m)))
  }

  function ReceiveAll(f: Follower, ms: seq<Message>): Follower {
    if ms == [] then f else Receive(ReceiveAll(f, ms[..|ms| - 1]), ms[|ms| - 1])
  }

  /** A heartbeat, or a message the leader built, with a commit index of its own or the
      boot value, that does not slip through the unchecked index 0. */
  ghost predicate Expected(f: Follower, m: Message, leader: seq<Entry>) {
    m == HEARTBEAT || (FromLeader(m, leader) && !Unchecked(f.log, m) && (m.commit < Reach(m) || m.commit <= 0))
  }

  ghost predicate AllExpected(f: Follower, ms: seq<Message>, leader: seq<Entry>) {
    forall j :: 0 <= j < |ms| ==> Expected(ReceiveAll(f, ms[..j]), ms[j], leader)
  }

  ghost predicate InStep(f: Follower, leader: seq<Entry>) {
    Whole(f.log) && LogMatching(f.log.entries, leader) && f.commit >= 0 && CommitAgrees(f.commit, f.log, leader)
  }

  lemma ReceiveInStep(f: Follower, m: Message, leader: seq<Entry>)
    requires InStep(f, leader) && Expected(f, m, leader)
    ensures InStep(Receive(f, m), leader)
  {
    hide LogMatching, Agree, Check, Handle, FromLeader, Unchecked, Common;
    if m == HEARTBEAT {
      HeartbeatIsIdleIff(f.log, f.commit);
    } else if Check(f.log, m.prev, m.prevTerm) == Accept {
      HandleAgrees(f.log, m, leader);
      ReachNonNegative(m, leader);
      CommitStaysInStep(f.log, m, leader, f.commit);
      CommonInLog(Handle(f.log, m).entries, leader);
    }
  }

  lemma CommonInLog(f: seq<Entry>, leader: seq<Entry>)
    ensures Common(f, leader) <= |f|
  {
  }

  lemma BootedInStep(leader: seq<Entry>)
    ensures InStep(BOOTED, leader)
  {
  }

  /** From boot on, under any sequence of heartbeats and built messages, what the
      follower counts as committed is the leader's. */
  lemma {:induction false} CommitsAreTheLeaders(ms: seq<Message>, leader: seq<Entry>)
    requires AllExpected(BOOTED, ms, leader)
    ensures InStep(ReceiveAll(BOOTED, ms), leader)
  {
    hide InStep, Receive, Expected;
    if ms == [] {
      BootedInStep(leader);
    } else {
      var n := |ms| - 1;
      assert forall j :: 0 <= j < n ==> ms[..n][..j] == ms[..j];
      CommitsAreTheLeaders(ms[..n], leader);
      ReceiveInStep(ReceiveAll(BOOTED, ms[..n]), ms[n], leader);
    }
  }
}
