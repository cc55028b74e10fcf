/** The replicated log of one node, indexed from firstLogIndex, and the way a
    follower merges the entries of an append-entries message into it. */
module RaftLog {
  import opened Commands

  datatype Entry = Entry(term: int, command: Command)

  datatype Log = Log(entries: seq<Entry>, first: int, last: int)

  const EMPTY_LOG := Log([], 0, -1)

  /** The slice holds exactly the entries from first to last. */
  predicate LogOk(l: Log) {
    0 <= l.first && |l.entries| == l.last - l.first + 1
  }

  function EntryAt(l: Log, index: int): Option<Entry> {
    var offset := index - l.first;
    if 0 <= offset < |l.entries| then Some(l.entries[offset]) else None
  }

  /** One round of the merge loop. */
  function MergeOne(l: Log, index: int, e: Entry): Log {
    if index < l.first then l
    else if index > l.last then l.(entries := l.entries + [e], last := l.last + 1)
    else if EntryAt(l, index).Some? && EntryAt(l, index).value.term != e.term
    then l.(entries := l.entries[..index - l.first] + [e], last := index)
    else l
  }

  /** Merging entries that follow index prev, in order. */
  function Merge(l: Log, prev: int, es: seq<Entry>): Log {
    if es == [] then l
    else MergeOne(Merge(l, prev, es[..|es| - 1]), prev + |es|, es[|es| - 1])
  }

  lemma {:induction false} MergeLogOk(l: Log, prev: int, es: seq<Entry>)
    requires LogOk(l)
    ensures LogOk(Merge(l, prev, es)) && Merge(l, prev, es).first == l.first
  {
    if es != [] {
      MergeLogOk(l, prev, es[..|es| - 1]);
    }
  }

  datatype Verdict = Accept | Reject | NilEntry

  /** The log check of the handler: index 0 and below is not checked, and an index
      that was compacted away is dereferenced as nil. */
  function Check(l: Log, prev: int, prevTerm: int): Verdict {
    if prev <= 0 then Accept
    else if l.last < prev then Reject
    else if EntryAt(l, prev).None? then NilEntry
    else if EntryAt(l, prev).value.term != prevTerm then Reject
    else Accept
  }

  /** The nil dereference happens exactly on a positive index before the first one kept. */
  lemma NilEntryIff(l: Log, prev: int, prevTerm: int)
    requires LogOk(l)
    ensures Check(l, prev, prevTerm) == NilEntry <==> 0 < prev < l.first && prev <= l.last
  {
  }

  /** What the leader sends: everything it keeps from start on. */
  function EntriesFrom(l: Log, start: int): seq<Entry> {
    if l.first > l.last || start > l.last then []
    else
      var from := if start < l.first then 0 else start - l.first;
      var end := if l.last - l.first >= |l.entries| then |l.entries| - 1 else l.last - l.first;
      if from > end then [] else l.entries[from..end + 1]
  }

  // ----- The rule of the Raft paper, on whole logs -----

  /** Figure 2, receiver rule 2: the entry before the new ones must be there. */
  predicate RaftAccepts(log: seq<Entry>, prev: int, prevTerm: int) {
    prev == -1 || (0 <= prev < |log| && log[prev].term == prevTerm)
  }

  /** How many of the new entries are already in the log from start on. */
  function MatchLength(log: seq<Entry>, start: nat, es: seq<Entry>): (n: nat)
    ensures n <= |es|
    ensures start <= |log| ==> start + n <= |log|
    decreases es
  {
    if es == [] || start >= |log| || log[start].term != es[0].term then 0
    else 1 + MatchLength(log, start + 1, es[1..])
  }

  /** Figure 2, receiver rules 3 and 4: drop a conflicting entry and all that follow
      it, append the entries not already there. */
  function RaftAppend(log: seq<Entry>, prev: int, es: seq<Entry>): seq<Entry>
    requires -1 <= prev < |log|
  {
    var n := MatchLength(log, prev + 1, es);
    if n == |es| then log else log[..prev + 1 + n] + es[n..]
  }

  predicate Whole(l: Log) {
    l.first == 0 && l.last == |l.entries| - 1
  }

  lemma {:induction false} MatchLengthMeans(log: seq<Entry>, start: nat, es: seq<Entry>)
    ensures var n := MatchLength(log, start, es);
            && (forall j :: 0 <= j < n ==> start + j < |log| && log[start + j].term == es[j].term)
            && (n < |es| ==> start + n >= |log| || log[start + n].term != es[n].term)
    decreases es
  {
    if es != [] && start < |log| && log[start].term == es[0].term {
      MatchLengthMeans(log, start + 1, es[1..]);
      var n := MatchLength(log, start, es);
      forall j | 0 <= j < n ensures start + j < |log| && log[start + j].term == es[j].term {
        if j > 0 { assert es[1..][j - 1] == es[j]; }
      }
      if n < |es| { assert es[1..][n - 1] == es[n]; }
    }
  }

  lemma MatchedAt(log: seq<Entry>, start: nat, es: seq<Entry>, j: nat)
    requires j < |es|
    ensures var n := MatchLength(log, start, es);
            && (j < n ==> start + j < |log| && log[start + j].term == es[j].term)
            && (j == n ==> start + j >= |log| || log[start + j].term != es[j].term)
  {
    MatchLengthMeans(log, start, es);
  }

  /** The log after i rounds of the loop: untouched while the entries match, and from
      the first one that does not match on a plain append behind the matched part. */
  ghost function AfterRounds(l: Log, prev: int, es: seq<Entry>, i: nat): Log
    requires Whole(l) && -1 <= prev <= l.last && i <= |es|
  {
    var n := MatchLength(l.entries, prev + 1, es);
    if i <= n then l else Log(l.entries[..prev + 1 + n] + es[n..i], 0, prev + i)
  }

  lemma RoundAdvances(l: Log, prev: int, es: seq<Entry>, i: nat)
    requires Whole(l) && -1 <= prev <= l.last && 0 < i <= |es|
    ensures MergeOne(AfterRounds(l, prev, es, i - 1), prev + i, es[i - 1]) == AfterRounds(l, prev, es, i)
  {
    hide MatchLength, MergeOne;
    var n := MatchLength(l.entries, prev + 1, es);
    MatchedAt(l.entries, prev + 1, es, i - 1);
    if i - 1 < n {
      MergeMatched(l, prev + i, es[i - 1]);
    } else if i - 1 == n {
      MergeUnmatched(l, prev + i, es[n]);
      assert es[n..i] == [es[n]];
    } else {
      MergeBehind(l.entries[..prev + 1 + n], es, n, i, prev);
    }
  }

  lemma {:induction false} MergeProgress(l: Log, prev: int, es: seq<Entry>, i: nat)
    requires Whole(l) && -1 <= prev <= l.last && i <= |es|
    ensures Merge(l, prev, es[..i]) == AfterRounds(l, prev, es, i)
  {
    hide MergeOne;
    if i > 0 {
      hide AfterRounds;
      MergeProgress(l, prev, es, i - 1);
      assert es[..i][..i - 1] == es[..i - 1];
      RoundAdvances(l, prev, es, i);
    }
  }

  lemma MergeBehind(head: seq<Entry>, es: seq<Entry>, n: nat, i: nat, prev: int)
    requires n < i <= |es| && |head| == prev + 1 + n
    requires i - 1 > n
    ensures MergeOne(Log(head + es[n..i - 1], 0, prev + i - 1), prev + i, es[i - 1]) ==
              Log(head + es[n..i], 0, prev + i)
  {
    assert es[n..i] == es[n..i - 1] + [es[i - 1]];
    assert head + es[n..i - 1] + [es[i - 1]] == head + es[n..i];
  }

  lemma MergeMatched(l: Log, index: int, e: Entry)
    requires Whole(l) && 0 <= index <= l.last && l.entries[index].term == e.term
    ensures MergeOne(l, index, e) == l
  {
  }

  lemma MergeUnmatched(l: Log, index: int, e: Entry)
    requires Whole(l) && 0 <= index <= l.last + 1
    requires index <= l.last ==> l.entries[index].term != e.term
    ensures MergeOne(l, index, e) == Log(l.entries[..index] + [e], 0, index)
  {
    assert l.entries[..|l.entries|] == l.entries;
  }

  /** On an uncompacted log and an index inside it, the merge loop is the paper's
      rule: it truncates only at the first conflict. */
  lemma MergeIsRaftAppend(l: Log, prev: int, es: seq<Entry>)
    requires Whole(l) && -1 <= prev <= l.last
    ensures Whole(Merge(l, prev, es))
    ensures Merge(l, prev, es).entries == RaftAppend(l.entries, prev, es)
  {
    MergeProgress(l, prev, es, |es|);
    MatchLengthMeans(l.entries, prev + 1, es);
    assert es[..|es|] == es;
    assert es[MatchLength(l.entries, prev + 1, es)..|es|] == es[MatchLength(l.entries, prev + 1, es)..];
  }

  /** The handler accepts what the paper accepts, except that it does not look at the
      entry at index 0. */
  lemma CheckIsRaftAcceptsIff(l: Log, prev: int, prevTerm: int)
    requires Whole(l) && -1 <= prev
    ensures (Check(l, prev, prevTerm) == Accept <==> RaftAccepts(l.entries, prev, prevTerm)) <==>
              !(prev == 0 && (l.entries == [] || l.entries[0].term != prevTerm))
  {
  }

  // ----- Compacted logs -----

  /** The log from index first on. */
  function Compacted(l: Log, first: nat): Log
    requires Whole(l) && first <= |l.entries|
  {
    Log(l.entries[first..], first, l.last)
  }

  lemma CutSlice(entries: seq<Entry>, first: nat, index: nat, e: Entry)
    requires first <= index <= |entries|
    ensures (entries[..index] + [e])[first..] == entries[first..][..index - first] + [e]
  {
  }

  lemma MergeUnmatchedFrom(l: Log, index: int, e: Entry)
    requires LogOk(l) && l.first <= index <= l.last + 1
    requires index <= l.last ==> l.entries[index - l.first].term != e.term
    ensures MergeOne(l, index, e) == Log(l.entries[..index - l.first] + [e], l.first, index)
  {
    assert l.entries[..|l.entries|] == l.entries;
  }

  lemma MergeMatchedFrom(l: Log, index: int, e: Entry)
    requires LogOk(l) && index <= l.last
    requires index >= l.first ==> l.entries[index - l.first].term == e.term
    ensures MergeOne(l, index, e) == l
  {
  }

  lemma MergeOneCompacts(l: Log, first: nat, index: int, e: Entry)
    requires Whole(l) && first <= |l.entries| && 0 <= index <= |l.entries|
    requires index < first ==> l.entries[index].term == e.term
    ensures var l' := MergeOne(l, index, e);
            && Whole(l') && first <= |l'.entries| && index < |l'.entries|
            && MergeOne(Compacted(l, first), index, e) == Compacted(l', first)
  {
    hide MergeOne;
    var c := Compacted(l, first);
    assert first <= index < |l.entries| ==> c.entries[index - first] == l.entries[index];
    if index < |l.entries| && l.entries[index].term == e.term {
      MergeMatched(l, index, e);
      MergeMatchedFrom(c, index, e);
    } else {
      MergeUnmatched(l, index, e);
      MergeUnmatchedFrom(c, index, e);
      CutSlice(l.entries, first, index, e);
    }
  }

  /** The log starts with the given entries. */
  predicate StartsWith(l: Log, head: seq<Entry>) {
    Whole(l) && |head| <= |l.entries| && l.entries[..|head|] == head
  }

  /** Merging into a compacted log gives what compacting the merged whole log gives, as
      long as the message does not contradict the part that was cut off. */
  lemma {:induction false} MergeCompacts(l: Log, head: seq<Entry>, prev: int, es: seq<Entry>)
    requires StartsWith(l, head) && -1 <= prev <= l.last
    requires forall j :: 0 <= j < |es| && prev + 1 + j < |head| ==> head[prev + 1 + j].term == es[j].term
    ensures var l' := Merge(l, prev, es);
            && StartsWith(l', head) && prev + |es| < |l'.entries|
            && Merge(Compacted(l, |head|), prev, es) == Compacted(l', |head|)
  {
    if es != [] {
      hide MergeOne, Compacted;
      var n := |es| - 1;
      MergeCompacts(l, head, prev, es[..n]);
      var l', at := Merge(l, prev, es[..n]), prev + 1 + n;
      assert at < |head| ==> head[prev + 1 + n].term == es[n].term;
      assert at < |head| ==> l'.entries[..|head|][at] == l'.entries[at];
      MergeOneCompacts(l', |head|, at, es[n]);
      MergeOneKeepsHead(l', |head|, at, es[n]);
    }
  }

  lemma MergeOneKeepsHead(l: Log, first: nat, index: int, e: Entry)
    requires Whole(l) && first <= |l.entries| && 0 <= index <= |l.entries|
    requires index < first ==> l.entries[index].term == e.term
    ensures var l' := MergeOne(l, index, e);
            first <= |l'.entries| && l'.entries[..first] == l.entries[..first]
  {
  }
}
