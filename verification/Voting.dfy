/** One node's part in leader election: its role, term and vote, what it has
    persisted of them, and the handlers that change them. Each handler is one locked
    region of the node. */
module Voting {

  const NONE := -1

  datatype Role = Follower | Candidate | Leader

  /** The persisted term and vote. */
  datatype Ballot = Ballot(term: int, votedFor: int)

  datatype LogEnd = LogEnd(first: int, last: int, lastTerm: int)

  datatype Node = Node(
    role: Role,
    term: int,
    votedFor: int,
    votes: int,
    electionDone: bool,
    dead: bool,
    log: LogEnd,
    disk: Ballot)

  datatype VoteRequest = VoteRequest(term: int, candidate: int, lastLogIndex: int, lastLogTerm: int)

  datatype VoteReply = VoteReply(term: int, granted: bool)

  function Persisted(n: Node): Node {
    n.(disk := Ballot(n.term, n.votedFor))
  }

  /** A node that (re)starts with what it persisted. */
  function Restarted(disk: Ballot, log: LogEnd): Node {
    Node(Follower, disk.term, disk.votedFor, 0, false, false, log, disk)
  }

  function Started(n: Node, me: int): Node {
    Persisted(n.(role := Candidate, term := n.term + 1, votedFor := me)).(votes := 1, electionDone := false)
  }

  function RequestOf(n: Node, me: int): VoteRequest {
    VoteRequest(n.term, me, n.log.last, n.log.lastTerm)
  }

  /** A newer term clears the vote. */
  function Adopted(n: Node, term: int): Node {
    Persisted(n.(term := term, votedFor := NONE))
  }

  predicate UpToDate(log: LogEnd, args: VoteRequest) {
    || log.last < log.first
    || args.lastLogTerm > log.lastTerm
    || (args.lastLogTerm == log.lastTerm && args.lastLogIndex >= log.last)
  }

  /** The voter's answer; a higher term is adopted without leaving the present role. */
  function Voted(n: Node, args: VoteRequest): (Node, VoteReply) {
    if n.dead then (n, VoteReply(n.term, false))
    else if args.term < n.term then (Persisted(n), VoteReply(n.term, false))
    else
      var m := if args.term > n.term then Adopted(n, args.term) else n;
      if (m.votedFor == NONE || m.votedFor == args.candidate) && UpToDate(m.log, args)
      then (Persisted(m.(votedFor := args.candidate)), VoteReply(m.term, true))
      else (m, VoteReply(m.term, false))
  }

  /** A reply belongs to the running election of the term it was asked in. */
  predicate Listens(n: Node, term: int) {
    n.term == term && n.role == Candidate && !n.electionDone
  }

  predicate CountsVote(n: Node, term: int, reply: VoteReply) {
    Listens(n, term) && reply.term == n.term && reply.granted
  }

  predicate Wins(n: Node, term: int, reply: VoteReply, peers: int) {
    CountsVote(n, term, reply) && n.votes + 1 > peers / 2
  }

  function Replied(n: Node, term: int, reply: VoteReply, peers: int): Node {
    if Listens(n, term) && reply.term > n.term then Adopted(n.(role := Follower), reply.term).(electionDone := true)
    else if Wins(n, term, reply, peers) then n.(votes := n.votes + 1, role := Leader, electionDone := true)
    else if CountsVote(n, term, reply) then n.(votes := n.votes + 1)
    else n
  }

  /** The term part of the append-entries handler. */
  function HeardLeader(n: Node, term: int): Node {
    if n.dead || term < n.term then n
    else (if term > n.term then Adopted(n, term) else n).(role := Follower)
  }

  /** A leader that learns of a newer term from a reply steps down. */
  function HeardTerm(n: Node, term: int): Node {
    if n.role == Leader && term > n.term then Adopted(n.(role := Follower), term) else n
  }

  /** The term part of the install-snapshot handler; it persists on every path. */
  function HeardSnapshot(n: Node, term: int): Node {
    if term < n.term then n
    else Persisted((if term > n.term then n.(term := term, votedFor := NONE) else n).(role := Follower))
  }

  function Killed(n: Node): Node {
    n.(dead := true, role := Follower)
  }

  class Raft {
    const me: int
    const peers: int
    var role: Role
    var currentTerm: int
    var votedFor: int
    var electionVotes: int
    var electionDone: bool
    var dead: bool
    var log: LogEnd
    var persisted: Ballot

    ghost function State(): Node
      reads this
    {
      Node(role, currentTerm, votedFor, electionVotes, electionDone, dead, log, persisted)
    }

    /** Starts a node from its persister; a fresh persister holds term 0 and no vote. */
    constructor (me: int, peers: int, persister: Ballot, log: LogEnd)
      ensures State() == Restarted(persister, log) && this.me == me && this.peers == peers
    {
      this.me := me;
      this.peers := peers;
      role := Follower;
      currentTerm := persister.term;
      votedFor := persister.votedFor;
      electionVotes := 0;
      electionDone := false;
      dead := false;
      this.log := log;
      persisted := persister;
    }

    method Persist()
      modifies this`persisted
      ensures State() == Persisted(old(State()))
    {
      persisted := Ballot(currentTerm, votedFor);
    }

    method StartElection() returns (args: VoteRequest)
      modifies this
      ensures State() == Started(old(State()), me)
      ensures args == RequestOf(State(), me)
    {
      role := Candidate;
      currentTerm := currentTerm + 1;
      votedFor := me;
      args := VoteRequest(currentTerm, me, log.last, log.lastTerm);
      Persist();
      electionVotes := 1;
      electionDone := false;
    }

    method RequestVote(args: VoteRequest) returns (reply: VoteReply)
      modifies this
      ensures (State(), reply) == Voted(old(State()), args)
    {
      if dead {
        return VoteReply(currentTerm, false);
      }
      if args.term < currentTerm {
        Persist();
        return VoteReply(currentTerm, false);
      }
      if args.term > currentTerm {
        currentTerm := args.term;
        votedFor := NONE;
        Persist();
      }
      var update := false;
      if log.last < log.first {
        update := true;
      } else {
        update := args.lastLogTerm > log.lastTerm;
        update := update || (args.lastLogTerm == log.lastTerm && args.lastLogIndex >= log.last);
      }
      if (votedFor == -1 || votedFor == args.candidate) && update {
        votedFor := args.candidate;
        Persist();
        return VoteReply(currentTerm, true);
      }
      return VoteReply(currentTerm, false);
    }

    /** The closure that waits for one vote; term is the term it was sent in. */
    method OnVoteReply(term: int, reply: VoteReply) returns (won: bool)
      modifies this
      ensures State() == Replied(old(State()), term, reply, peers)
      ensures won <==> Wins(old(State()), term, reply, peers)
    {
      won := false;
      if currentTerm != term || role != Candidate || electionDone {
        return;
      }
      if reply.term > currentTerm {
        currentTerm := reply.term;
        role := Follower;
        votedFor := NONE;
        Persist();
        electionDone := true;
        return;
      }
      if reply.term < currentTerm {
        return;
      }
      if reply.granted {
        electionVotes := electionVotes + 1;
        if electionVotes > peers / 2 {
          role := Leader;
          electionDone := true;
          won := true;
        }
      }
    }

    method OnAppendEntries(leaderTerm: int)
      modifies this
      ensures State() == HeardLeader(old(State()), leaderTerm)
    {
      if dead || leaderTerm < currentTerm {
        return;
      }
      if leaderTerm > currentTerm {
        currentTerm := leaderTerm;
        votedFor := -1;
        Persist();
      }
      role := Follower;
    }

    method OnFollowerTerm(followerTerm: int)
      modifies this
      ensures State() == HeardTerm(old(State()), followerTerm)
    {
      if role != Leader || followerTerm <= currentTerm {
        return;
      }
      currentTerm := followerTerm;
      votedFor := NONE;
      role := Follower;
      Persist();
    }

    method OnInstallSnapshot(term: int)
      modifies this
      ensures State() == HeardSnapshot(old(State()), term)
    {
      if term < currentTerm {
        return;
      }
      role := Follower;
      if term > currentTerm {
        votedFor := -1;
        currentTerm := term;
      }
      Persist();
    }

    method Kill()
      modifies this
      ensures State() == Killed(old(State()))
    {
      dead := true;
      role := Follower;
    }
  }

  // ----- What every handler keeps -----

  /** At the end of every locked region the persisted ballot is the one in memory. */
  predicate DiskInStep(n: Node) {
    n.disk == Ballot(n.term, n.votedFor)
  }

  /** Terms never go back, and within a term a cast vote stays. */
  predicate Follows(n: Node, n': Node) {
    && n.term <= n'.term
    && (n.term == n'.term && n.votedFor != NONE ==> n'.votedFor == n.votedFor)
    && DiskInStep(n')
  }

  lemma HandlersFollow(n: Node, me: int, args: VoteRequest, t: int, reply: VoteReply, peers: int, log: LogEnd)
    requires DiskInStep(n)
    ensures Follows(n, Started(n, me))
    ensures Follows(n, Voted(n, args).0)
    ensures Follows(n, Replied(n, t, reply, peers))
    ensures Follows(n, HeardLeader(n, t))
    ensures Follows(n, HeardTerm(n, t))
    ensures Follows(n, HeardSnapshot(n, t))
    ensures Follows(n, Killed(n))
    ensures Follows(n, Restarted(n.disk, log))
  {
  }

  /** The log end of the first comes before that of the second: an older last term, or
      the same one and a smaller last index. */
  predicate EndsBefore(term: int, index: int, term': int, index': int) {
    term < term' || (term == term' && index < index')
  }

  /** A vote is granted exactly when the voter lives, the request is not of an older term,
      the vote of that term is still free or already the candidate's, and the voter's log
      is empty or does not end behind the candidate's. */
  lemma GrantedIff(n: Node, args: VoteRequest)
    ensures Voted(n, args).1.granted <==>
              && !n.dead
              && args.term >= n.term
              && (args.term == n.term ==> n.votedFor == NONE || n.votedFor == args.candidate)
              && (n.log.first <= n.log.last ==>
                    !EndsBefore(args.lastLogTerm, args.lastLogIndex, n.log.lastTerm, n.log.last))
    ensures var (n', reply) := Voted(n, args);
            && reply.term == n'.term == (if !n.dead && args.term > n.term then args.term else n.term)
            && n'.votedFor == (if reply.granted then args.candidate
                               else if !n.dead && args.term > n.term then NONE else n.votedFor)
            && n'.role == n.role && n'.log == n.log && n'.votes == n.votes && n'.dead == n.dead
  {
  }

  /** A node that follows someone of the given term: its vote of an older term is gone,
      its log and its count of votes are as before. */
  predicate Yields(n: Node, n': Node, term: int) {
    && n'.role == Follower && n'.term == term
    && n'.votedFor == (if term > n.term then NONE else n.votedFor)
    && n'.log == n.log && n'.dead == n.dead && n'.votes == n.votes
    && DiskInStep(n')
  }

  /** A node yields to every message of its own or a newer term that comes from a leader,
      a leader to every reply of a newer term, a candidate to every vote reply of a newer
      term; to all others they do nothing, and a refusal or a stale reply does nothing. */
  lemma YieldsIff(n: Node, term: int, asked: int, reply: VoteReply, peers: int)
    requires DiskInStep(n)
    ensures if !n.dead && term >= n.term then Yields(n, HeardLeader(n, term), term) else HeardLeader(n, term) == n
    ensures if term >= n.term then Yields(n, HeardSnapshot(n, term), term) else HeardSnapshot(n, term) == n
    ensures if n.role == Leader && term > n.term then Yields(n, HeardTerm(n, term), term) else HeardTerm(n, term) == n
    ensures n.role == Candidate && !n.electionDone && n.term == asked && reply.term > n.term ==>
              Yields(n, Replied(n, asked, reply, peers), reply.term)
    ensures n.role != Candidate || n.electionDone || n.term != asked ==> Replied(n, asked, reply, peers) == n
    ensures reply.term < n.term || (reply.term == n.term && !reply.granted) ==> Replied(n, asked, reply, peers) == n
  {
  }

  /** A killed node leads nobody, keeps its ballot, and neither votes nor follows. */
  lemma KilledIsSilent(n: Node, args: VoteRequest, term: int)
    ensures var k := Killed(n);
            && k.role == Follower && k.term == n.term && k.votedFor == n.votedFor && k.disk == n.disk && k.log == n.log
            && Voted(k, args) == (k, VoteReply(n.term, false)) && HeardLeader(k, term) == k
  {
  }

  /** A node comes back alive, as a follower with its persisted ballot and no votes. */
  lemma RestartsAsFollower(n: Node)
    requires DiskInStep(n)
    ensures var r := Restarted(n.disk, n.log);
            && r.role == Follower && !r.dead && r.votes == 0 && r.log == n.log
            && r.term == n.term && r.votedFor == n.votedFor && DiskInStep(r)
  {
  }

  /** An election after k granted replies. */
  function AfterVotes(n: Node, me: int, k: nat, peers: int): Node {
    if k == 0 then Started(n, me)
    else
      var m := AfterVotes(n, me, k - 1, peers);
      Replied(m, n.term + 1, VoteReply(n.term + 1, true), peers)
  }

  /** The candidate of the next term becomes its leader exactly with the reply that makes
      a majority together with its own vote. It needs a reply even in a cluster of one. */
  lemma {:induction false} MajorityWins(n: Node, me: int, k: nat, peers: int)
    ensures var m := AfterVotes(n, me, k, peers);
            && m.term == n.term + 1 && m.votedFor == me
            && (m.role == Leader <==> k >= 1 && 2 * (k + 1) > peers)
            && (m.role != Leader ==> m.role == Candidate && m.votes == k + 1 && !m.electionDone)
            && (m.role == Leader ==> m.electionDone)
  {
    if k > 0 {
      MajorityWins(n, me, k - 1, peers);
    }
  }

  /** A granted vote is a vote of the requested term, cast for the requester. */
  lemma GrantedVote(n: Node, args: VoteRequest)
    requires Voted(n, args).1.granted
    ensures var n' := Voted(n, args).0;
            && Voted(n, args).1.term == args.term == n'.term
            && n'.votedFor == args.candidate
            && (n.term == args.term ==> n.votedFor == NONE || n.votedFor == args.candidate)
  {
  }

  /** A vote request never makes a leader step down, and moves its term exactly when it
      carries a newer one. What that means for a cluster is said in Election. */
  lemma LeaderOutlivesItsTermIff(n: Node, args: VoteRequest)
    requires n.role == Leader
    ensures Voted(n, args).0.role == Leader
    ensures Voted(n, args).0.term != n.term <==> !n.dead && args.term > n.term
  {
  }
}
