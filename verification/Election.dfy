/** Leader election over a whole cluster: every interleaving of elections, votes,
    lost, delayed, repeated and reordered messages, term changes, kills and restarts.
    Node i is peers[i], as the constructor's contract says. */
module Election {
  import opened Voting

  /** One outstanding request of a candidate to a voter. */
  datatype Call = Call(candidate: int, term: int, voter: int)

  datatype Message =
    | Request(voter: int, args: VoteRequest)
    | Reply(call: Call, reply: VoteReply)

  /** A vote cast, by granting a request or by standing for election. */
  datatype Vote = Vote(voter: int, term: int, candidate: int)

  /** A run of becomeLeader, and the voters whose votes had been counted. */
  datatype Win = Win(node: int, term: int, voters: set<int>)

  /** The nodes and the network, and what an observer has recorded: the calls whose
      replies are still awaited, the votes cast, the voters counted in each node's
      present election, and the elections won. */
  datatype Cluster = Cluster(
    nodes: seq<Node>,
    net: set<Message>,
    waiting: set<Call>,
    cast: set<Vote>,
    counted: seq<set<int>>,
    wins: set<Win>)

  datatype Event =
    | Start(n: int)
    | Deliver(voter: int, args: VoteRequest)
    | Count(call: Call, reply: VoteReply)
    | Lose(call: Call)
    | AppendEntries(n: int, term: int)
    | FollowerTerm(n: int, term: int)
    | InstallSnapshot(n: int, term: int)
    | Kill(n: int)
    | Restart(n: int)
    | LogMoves(n: int, log: LogEnd)

  predicate IsNode(c: Cluster, n: int) {
    0 <= n < |c.nodes| == |c.counted|
  }

  ghost function CallsOf(c: Cluster, n: int, term: int): set<Call> {
    set v | 0 <= v < |c.nodes| && v != n :: Call(n, term, v)
  }

  ghost function RequestsOf(c: Cluster, n: int, args: VoteRequest): set<Message> {
    set v | 0 <= v < |c.nodes| && v != n :: Request(v, args)
  }

  ghost function WithNode(c: Cluster, n: int, node: Node): Cluster
    requires IsNode(c, n)
  {
    c.(nodes := c.nodes[n := node])
  }

  /** The effect of one event; an event that is not enabled changes nothing. */
  ghost function Step(c: Cluster, e: Event): Cluster {
    match e
    case Start(n) =>
      if !IsNode(c, n) then c else
        var node := Started(c.nodes[n], n);
        WithNode(c, n, node).(
          net := c.net + RequestsOf(c, n, RequestOf(node, n)),
          waiting := c.waiting + CallsOf(c, n, node.term),
          cast := c.cast + {Vote(n, node.term, n)},
          counted := c.counted[n := {n}])
    case Deliver(voter, args) =>
      if !IsNode(c, voter) || Request(voter, args) !in c.net then c else
        var (node, reply) := Voted(c.nodes[voter], args);
        WithNode(c, voter, node).(
          net := c.net + {Reply(Call(args.candidate, args.term, voter), reply)},
          cast := c.cast + if reply.granted then {Vote(voter, args.term, args.candidate)} else {})
    case Count(call, reply) =>
      if !IsNode(c, call.candidate) || call !in c.waiting || Reply(call, reply) !in c.net then c else
        Counted(c, call, reply)
    case Lose(call) => c.(waiting := c.waiting - {call})
    case AppendEntries(n, term) => if IsNode(c, n) then WithNode(c, n, HeardLeader(c.nodes[n], term)) else c
    case FollowerTerm(n, term) => if IsNode(c, n) then WithNode(c, n, HeardTerm(c.nodes[n], term)) else c
    case InstallSnapshot(n, term) => if IsNode(c, n) then WithNode(c, n, HeardSnapshot(c.nodes[n], term)) else c
    case Kill(n) => if IsNode(c, n) then WithNode(c, n, Killed(c.nodes[n])) else c
    case Restart(n) =>
      if !IsNode(c, n) then c else
        WithNode(c, n, Restarted(c.nodes[n].disk, c.nodes[n].log)).(
          waiting := set call | call in c.waiting && call.candidate != n)
    case LogMoves(n, log) => if IsNode(c, n) then WithNode(c, n, c.nodes[n].(log := log)) else c
  }

  ghost function Counted(c: Cluster, call: Call, reply: VoteReply): Cluster
    requires IsNode(c, call.candidate)
  {
    var n := call.candidate;
    var before, peers := c.nodes[n], |c.nodes|;
    var voters := if CountsVote(before, call.term, reply) then c.counted[n] + {call.voter} else c.counted[n];
    WithNode(c, n, Replied(before, call.term, reply, peers)).(
      waiting := c.waiting - {call},
      counted := c.counted[n := voters],
      wins := c.wins + if Wins(before, call.term, reply, peers) then {Win(n, call.term, voters)} else {})
  }

  ghost function Run(c: Cluster, events: seq<Event>): Cluster {
    if events == [] then c else Step(Run(c, events[..|events| - 1]), events[|events| - 1])
  }

  ghost predicate Booted(c: Cluster) {
    && |c.counted| == |c.nodes|
    && (forall n :: 0 <= n < |c.nodes| ==> DiskInStep(c.nodes[n]))
    && c.net == {} && c.waiting == {} && c.cast == {} && c.wins == {}
  }

  // ----- Invariants -----

  ghost predicate NodesOk(c: Cluster) {
    && |c.counted| == |c.nodes|
    && forall n :: 0 <= n < |c.nodes| ==> DiskInStep(c.nodes[n])
  }

  /** A vote of the present term is the vote the voter remembers; older votes are past. */
  ghost predicate Remembered(c: Cluster, v: Vote) {
    && 0 <= v.voter < |c.nodes| && 0 <= v.candidate < |c.nodes|
    && v.term <= c.nodes[v.voter].term
    && (v.term == c.nodes[v.voter].term ==> c.nodes[v.voter].votedFor == v.candidate)
  }

  ghost predicate VotesRemembered(c: Cluster) {
    forall v :: v in c.cast ==> Remembered(c, v)
  }

  /** No node votes for two candidates in one term. */
  ghost predicate OneVotePerTerm(cast: set<Vote>) {
    forall v, v' :: v in cast && v' in cast && v.voter == v'.voter && v.term == v'.term ==> v == v'
  }

  ghost predicate MessageOk(c: Cluster, m: Message) {
    match m
    case Request(voter, args) => 0 <= voter < |c.nodes| && 0 <= args.candidate < |c.nodes|
    case Reply(call, reply) => reply.granted ==> Vote(call.voter, call.term, call.candidate) in c.cast
  }

  ghost predicate NetOk(c: Cluster) {
    forall m :: m in c.net ==> MessageOk(c, m)
  }

  /** An awaited call of the present term finds the election it belongs to intact: the
      count is the number of voters counted, each with a vote cast for this node in
      this term, and the awaited voter is not among them. */
  ghost predicate CallOk(c: Cluster, call: Call) {
    var n := call.candidate;
    && 0 <= n < |c.nodes| == |c.counted| && 0 <= call.voter < |c.nodes|
    && call.term <= c.nodes[n].term
    && (call.term == c.nodes[n].term ==>
          && c.nodes[n].votes == |c.counted[n]|
          && call.voter !in c.counted[n]
          && Backed(c, n, call.term, c.counted[n]))
  }

  ghost predicate Backed(c: Cluster, n: int, term: int, voters: set<int>) {
    forall v :: v in voters ==> 0 <= v < |c.nodes| && Vote(v, term, n) in c.cast
  }

  ghost predicate CallsOk(c: Cluster) {
    forall call :: call in c.waiting ==> CallOk(c, call)
  }

  ghost predicate WinOk(c: Cluster, w: Win) {
    2 * |w.voters| > |c.nodes| && Backed(c, w.node, w.term, w.voters)
  }

  ghost predicate WinsOk(c: Cluster) {
    forall w :: w in c.wins ==> WinOk(c, w)
  }

  ghost predicate Inv(c: Cluster) {
    NodesOk(c) && VotesRemembered(c) && OneVotePerTerm(c.cast) && NetOk(c) && CallsOk(c) && WinsOk(c)
  }

  // ----- Small changes that keep the invariant -----

  /** A node moves on without touching a count that is still awaited. */
  lemma QuietStep(c: Cluster, n: int, node: Node)
    requires Inv(c) && IsNode(c, n) && Follows(c.nodes[n], node)
    requires node.term == c.nodes[n].term && node.votes != c.nodes[n].votes ==>
               forall call :: call in c.waiting ==> call.candidate != n
    ensures Inv(WithNode(c, n, node))
  {
    hide OneVotePerTerm, Follows;
    var c' := WithNode(c, n, node);
    FollowsFacts(c.nodes[n], node);
    forall v | v in c'.cast ensures Remembered(c', v) { assert Remembered(c, v); }
    forall m | m in c'.net ensures MessageOk(c', m) { assert MessageOk(c, m); }
    forall call | call in c'.waiting ensures CallOk(c', call) { assert CallOk(c, call); }
    forall w | w in c'.wins ensures WinOk(c', w) { assert WinOk(c, w); }
  }

  lemma FollowsFacts(n: Node, n': Node)
    requires Follows(n, n')
    ensures n.term <= n'.term && DiskInStep(n')
    ensures n.term == n'.term && n.votedFor != NONE ==> n'.votedFor == n.votedFor
  {
  }

  lemma FewerCalls(c: Cluster, waiting: set<Call>)
    requires Inv(c) && waiting <= c.waiting
    ensures Inv(c.(waiting := waiting))
  {
    hide OneVotePerTerm, Remembered, NodesOk;
    var c' := c.(waiting := waiting);
    forall v | v in c'.cast ensures Remembered(c', v) { assert Remembered(c, v); SameRemembered(c, c', v); }
    forall m | m in c'.net ensures MessageOk(c', m) { assert MessageOk(c, m); }
    forall call | call in c'.waiting ensures CallOk(c', call) { assert CallOk(c, call); }
    forall w | w in c'.wins ensures WinOk(c', w) { assert WinOk(c, w); }
    assert NodesOk(c') by { SameNodes(c, c'); }
  }

  lemma SameRemembered(c: Cluster, c': Cluster, v: Vote)
    requires Remembered(c, v) && c'.nodes == c.nodes
    ensures Remembered(c', v)
  {
  }

  lemma SameNodes(c: Cluster, c': Cluster)
    requires NodesOk(c) && c'.nodes == c.nodes && |c'.counted| == |c.counted|
    ensures NodesOk(c')
  {
  }

  /** Recording a vote the voter has just remembered. */
  lemma CastVote(c: Cluster, v: Vote)
    requires Inv(c) && Remembered(c, v) && v.term == c.nodes[v.voter].term
    ensures Inv(c.(cast := c.cast + {v}))
  {
    hide NodesOk;
    var c' := c.(cast := c.cast + {v});
    SameNodes(c, c');
    forall u | u in c.cast && u.voter == v.voter && u.term == v.term ensures u == v { assert Remembered(c, u); }
    forall u | u in c'.cast ensures Remembered(c', u) { if u != v { assert Remembered(c, u); } }
    forall m | m in c'.net ensures MessageOk(c', m) { assert MessageOk(c, m); }
    forall call | call in c'.waiting ensures CallOk(c', call) { assert CallOk(c, call); }
    forall w | w in c'.wins ensures WinOk(c', w) { assert WinOk(c, w); }
  }

  lemma SendMessages(c: Cluster, ms: set<Message>)
    requires Inv(c) && forall m :: m in ms ==> MessageOk(c, m)
    ensures Inv(c.(net := c.net + ms))
  {
    hide OneVotePerTerm, Remembered, NodesOk;
    var c' := c.(net := c.net + ms);
    SameNodes(c, c');
    forall v | v in c'.cast ensures Remembered(c', v) { assert Remembered(c, v); SameRemembered(c, c', v); }
    forall m | m in c'.net ensures MessageOk(c', m) { assert MessageOk(c, m); }
    forall call | call in c'.waiting ensures CallOk(c', call) { assert CallOk(c, call); }
    forall w | w in c'.wins ensures WinOk(c', w) { assert WinOk(c, w); }
  }

  /** A candidate that has just voted for itself starts to wait for the others. */
  lemma OpenElection(c: Cluster, n: int)
    requires Inv(c) && IsNode(c, n)
    requires c.nodes[n].votes == 1 && Vote(n, c.nodes[n].term, n) in c.cast
    requires forall call :: call in c.waiting && call.candidate == n ==> call.term < c.nodes[n].term
    ensures Inv(c.(waiting := c.waiting + CallsOf(c, n, c.nodes[n].term), counted := c.counted[n := {n}]))
  {
    hide OneVotePerTerm, Remembered, NodesOk;
    var c' := c.(waiting := c.waiting + CallsOf(c, n, c.nodes[n].term), counted := c.counted[n := {n}]);
    SameNodes(c, c');
    forall v | v in c'.cast ensures Remembered(c', v) { assert Remembered(c, v); SameRemembered(c, c', v); }
    forall m | m in c'.net ensures MessageOk(c', m) { assert MessageOk(c, m); }
    forall call | call in c'.waiting ensures CallOk(c', call) {
      if call in c.waiting { assert CallOk(c, call); }
    }
    forall w | w in c'.wins ensures WinOk(c', w) { assert WinOk(c, w); }
  }

  // ----- The steps -----

  lemma StartKeepsInv(c: Cluster, n: int)
    requires Inv(c) && IsNode(c, n)
    ensures Inv(Step(c, Start(n)))
  {
    var node := Started(c.nodes[n], n);
    assert DiskInStep(c.nodes[n]);
    assert Follows(c.nodes[n], node) && node.term == c.nodes[n].term + 1 && node.votes == 1 && node.votedFor == n;
    assert forall call :: call in c.waiting && call.candidate == n ==> call.term < node.term by {
      forall call | call in c.waiting ensures CallOk(c, call) { }
    }
    hide Inv, Started, Follows;
    QuietStep(c, n, node);
    var c1 := WithNode(c, n, node);
    CastVote(c1, Vote(n, node.term, n));
    var c2 := c1.(cast := c.cast + {Vote(n, node.term, n)});
    OpenElection(c2, n);
    var c3 := c2.(waiting := c.waiting + CallsOf(c, n, node.term), counted := c.counted[n := {n}]);
    assert CallsOf(c2, n, node.term) == CallsOf(c, n, node.term);
    SendMessages(c3, RequestsOf(c, n, RequestOf(node, n)));
    assert Step(c, Start(n)) == c3.(net := c.net + RequestsOf(c, n, RequestOf(node, n)));
  }

  lemma DeliverKeepsInv(c: Cluster, voter: int, args: VoteRequest)
    requires Inv(c) && IsNode(c, voter) && Request(voter, args) in c.net
    ensures Inv(Step(c, Deliver(voter, args)))
  {
    var (node, reply) := Voted(c.nodes[voter], args);
    assert DiskInStep(c.nodes[voter]) && MessageOk(c, Request(voter, args));
    assert Follows(c.nodes[voter], node) && node.votes == c.nodes[voter].votes;
    if reply.granted { GrantedVote(c.nodes[voter], args); }
    hide Inv, Voted, Follows;
    QuietStep(c, voter, node);
    var c1 := WithNode(c, voter, node);
    var vote := Vote(voter, args.term, args.candidate);
    var c2 := c1.(cast := c.cast + if reply.granted then {vote} else {});
    if reply.granted {
      CastVote(c1, vote);
    } else {
      assert c2 == c1;
    }
    SendMessages(c2, {Reply(Call(args.candidate, args.term, voter), reply)});
  }

  /** A counted vote is a new one, backed by a vote cast. */
  lemma CountVote(c: Cluster, call: Call, reply: VoteReply)
    requires Inv(c) && IsNode(c, call.candidate) && call in c.waiting && Reply(call, reply) in c.net
    requires CountsVote(c.nodes[call.candidate], call.term, reply)
    ensures Inv(Counted(c, call, reply))
  {
    hide OneVotePerTerm, Remembered, NodesOk;
    var n, term := call.candidate, call.term;
    var c' := Counted(c, call, reply);
    assert CallOk(c, call) && MessageOk(c, Reply(call, reply));
    assert |c'.counted[n]| == |c.counted[n]| + 1 && Backed(c', n, term, c'.counted[n]);
    CountNodesOk(c, call, reply);
    forall v | v in c'.cast ensures Remembered(c', v) { assert Remembered(c, v); CountRemembered(c, call, reply, v); }
    forall m | m in c'.net ensures MessageOk(c', m) { assert MessageOk(c, m); }
    forall other | other in c'.waiting ensures CallOk(c', other) { assert CallOk(c, other); }
    forall w | w in c'.wins ensures WinOk(c', w) { if w in c.wins { assert WinOk(c, w); } }
  }

  lemma CountNodesOk(c: Cluster, call: Call, reply: VoteReply)
    requires NodesOk(c) && IsNode(c, call.candidate)
    ensures NodesOk(Counted(c, call, reply))
  {
  }

  lemma CountRemembered(c: Cluster, call: Call, reply: VoteReply, v: Vote)
    requires IsNode(c, call.candidate) && Remembered(c, v)
    requires CountsVote(c.nodes[call.candidate], call.term, reply)
    ensures Remembered(Counted(c, call, reply), v)
  {
  }

  lemma CountKeepsInv(c: Cluster, call: Call, reply: VoteReply)
    requires Inv(c) && IsNode(c, call.candidate) && call in c.waiting && Reply(call, reply) in c.net
    ensures Inv(Counted(c, call, reply))
  {
    var n := call.candidate;
    if CountsVote(c.nodes[n], call.term, reply) {
      CountVote(c, call, reply);
    } else {
      assert DiskInStep(c.nodes[n]);
      var node := Replied(c.nodes[n], call.term, reply, |c.nodes|);
      assert Follows(c.nodes[n], node) && node.votes == c.nodes[n].votes;
      hide Inv, Follows, Replied, CountsVote;
      FewerCalls(c, c.waiting - {call});
      var c1 := c.(waiting := c.waiting - {call});
      QuietStep(c1, n, node);
      assert c.counted[n := c.counted[n]] == c.counted;
      assert Counted(c, call, reply) == WithNode(c1, n, node);
    }
  }

  lemma NodeEventKeepsInv(c: Cluster, n: int, node: Node)
    requires Inv(c) && IsNode(c, n)
    requires Follows(c.nodes[n], node) && node.votes == c.nodes[n].votes
    ensures Inv(WithNode(c, n, node))
  {
    hide Inv, Follows;
    QuietStep(c, n, node);
  }

  lemma RestartKeepsInv(c: Cluster, n: int)
    requires Inv(c) && IsNode(c, n)
    ensures Inv(Step(c, Restart(n)))
  {
    assert DiskInStep(c.nodes[n]);
    var node := Restarted(c.nodes[n].disk, c.nodes[n].log);
    assert Follows(c.nodes[n], node);
    hide Inv, Follows, Restarted;
    var waiting := set call | call in c.waiting && call.candidate != n;
    FewerCalls(c, waiting);
    QuietStep(c.(waiting := waiting), n, node);
  }

  lemma NodeDiskInStep(c: Cluster, n: int)
    requires Inv(c) && IsNode(c, n)
    ensures DiskInStep(c.nodes[n])
  {
  }

  lemma StepKeepsInv(c: Cluster, e: Event)
    requires Inv(c)
    ensures Inv(Step(c, e))
  {
    hide Inv;
    match e
    case Start(n) => if IsNode(c, n) { StartKeepsInv(c, n); }
    case Deliver(voter, args) =>
      if IsNode(c, voter) && Request(voter, args) in c.net { DeliverKeepsInv(c, voter, args); }
    case Count(call, reply) =>
      if IsNode(c, call.candidate) && call in c.waiting && Reply(call, reply) in c.net { CountKeepsInv(c, call, reply); }
    case Lose(call) => FewerCalls(c, c.waiting - {call});
    case AppendEntries(n, term) =>
      if IsNode(c, n) { NodeDiskInStep(c, n); NodeEventKeepsInv(c, n, HeardLeader(c.nodes[n], term)); }
    case FollowerTerm(n, term) =>
      if IsNode(c, n) { NodeDiskInStep(c, n); NodeEventKeepsInv(c, n, HeardTerm(c.nodes[n], term)); }
    case InstallSnapshot(n, term) =>
      if IsNode(c, n) { NodeDiskInStep(c, n); NodeEventKeepsInv(c, n, HeardSnapshot(c.nodes[n], term)); }
    case Kill(n) => if IsNode(c, n) { NodeDiskInStep(c, n); NodeEventKeepsInv(c, n, Killed(c.nodes[n])); }
    case Restart(n) => if IsNode(c, n) { RestartKeepsInv(c, n); }
    case LogMoves(n, log) =>
      if IsNode(c, n) { NodeDiskInStep(c, n); NodeEventKeepsInv(c, n, c.nodes[n].(log := log)); }
  }

  lemma {:induction false} RunKeepsInv(c: Cluster, events: seq<Event>)
    requires Inv(c)
    ensures Inv(Run(c, events))
  {
    hide Inv, Step;
    if events != [] {
      RunKeepsInv(c, events[..|events| - 1]);
      StepKeepsInv(Run(c, events[..|events| - 1]), events[|events| - 1]);
    }
  }

  // ----- Quorums -----

  lemma {:induction false} RangeSize(s: set<int>, n: nat)
    requires forall x :: x in s ==> 0 <= x < n
    ensures |s| <= n
  {
    if n == 0 {
      assert forall x :: x !in s;
    } else {
      RangeSize(s - {n - 1}, n - 1);
    }
  }

  lemma QuorumsMeet(a: set<int>, b: set<int>, n: nat) returns (x: int)
    requires forall y :: y in a + b ==> 0 <= y < n
    requires 2 * |a| > n && 2 * |b| > n
    ensures x in a && x in b
  {
    RangeSize(a + b, n);
    assert |a + b| + |a * b| == |a| + |b|;
    x :| x in a * b;
  }

  // ----- The theorems -----

  /** At most one node runs becomeLeader in any term, over every interleaving from any
      boot state (section 5.2 of the Raft paper). */
  lemma ElectionSafety(c: Cluster, events: seq<Event>, w: Win, w': Win)
    requires Booted(c)
    requires w in Run(c, events).wins && w' in Run(c, events).wins && w.term == w'.term
    ensures w.node == w'.node
  {
    assert Inv(c);
    var d := Run(c, events);
    RunKeepsInv(c, events);
    assert WinOk(d, w) && WinOk(d, w');
    hide Run, Booted;
    var v := QuorumsMeet(w.voters, w'.voters, |d.nodes|);
    assert Vote(v, w.term, w.node) in d.cast && Vote(v, w.term, w'.node) in d.cast;
  }

  /** No node ever votes for two candidates in one term, restarts included. */
  lemma OneVoteAcrossRestarts(c: Cluster, events: seq<Event>, v: Vote, v': Vote)
    requires Booted(c)
    requires v in Run(c, events).cast && v' in Run(c, events).cast && v.voter == v'.voter && v.term == v'.term
    ensures v.candidate == v'.candidate
  {
    assert Inv(c);
    RunKeepsInv(c, events);
  }

  /** What is persisted equals memory after every step, and terms never decrease. */
  lemma {:induction false} TermsNeverDecrease(c: Cluster, events: seq<Event>, n: int)
    requires Inv(c) && IsNode(c, n)
    ensures var d := Run(c, events);
            IsNode(d, n) && DiskInStep(d.nodes[n]) && c.nodes[n].term <= d.nodes[n].term
  {
    if events == [] {
      NodeDiskInStep(c, n);
    } else {
      hide Inv, Step;
      var m := Run(c, events[..|events| - 1]);
      TermsNeverDecrease(c, events[..|events| - 1], n);
      RunKeepsInv(c, events[..|events| - 1]);
      StepKeepsInv(m, events[|events| - 1]);
      TermStep(m, events[|events| - 1], n);
      NodeDiskInStep(Step(m, events[|events| - 1]), n);
    }
  }

  lemma TermStep(c: Cluster, e: Event, n: int)
    requires IsNode(c, n) && DiskInStep(c.nodes[n])
    ensures IsNode(Step(c, e), n) && c.nodes[n].term <= Step(c, e).nodes[n].term
  {
  }

  // ----- Votes and logs -----

  /** The request is the one its candidate sent when it stood at some point of the run:
      it carries the next term and the end of the candidate's log at that point. */
  ghost predicate SentAt(c: Cluster, events: seq<Event>, args: VoteRequest, i: nat) {
    && i < |events| && events[i] == Start(args.candidate)
    && IsNode(Run(c, events[..i]), args.candidate)
    && var node := Run(c, events[..i]).nodes[args.candidate];
       args == VoteRequest(node.term + 1, args.candidate, node.log.last, node.log.lastTerm)
  }

  lemma RequestStep(c: Cluster, e: Event, voter: int, args: VoteRequest)
    requires Request(voter, args) in Step(c, e).net && Request(voter, args) !in c.net
    ensures e == Start(args.candidate) && IsNode(c, args.candidate)
    ensures var node := c.nodes[args.candidate];
            args == VoteRequest(node.term + 1, args.candidate, node.log.last, node.log.lastTerm)
  {
  }

  lemma SentEarlier(c: Cluster, events: seq<Event>, args: VoteRequest, i: nat)
    requires events != [] && SentAt(c, events[..|events| - 1], args, i)
    ensures SentAt(c, events, args, i)
  {
    assert events[..|events| - 1][..i] == events[..i];
  }

  /** Every request on the network was sent by a candidate that stood. */
  lemma {:induction false} RequestsWereSent(c: Cluster, events: seq<Event>, voter: int, args: VoteRequest)
    returns (i: nat)
    requires Booted(c) && Request(voter, args) in Run(c, events).net
    ensures SentAt(c, events, args, i)
  {
    var n := |events| - 1;
    var before := Run(c, events[..n]);
    hide Step, SentAt;
    if Request(voter, args) in before.net {
      i := RequestsWereSent(c, events[..n], voter, args);
      SentEarlier(c, events, args, i);
    } else {
      RequestStep(before, events[n], voter, args);
      i := n;
      assert SentAt(c, events, args, i) by { SentNow(c, events, args); }
    }
  }

  lemma SentNow(c: Cluster, events: seq<Event>, args: VoteRequest)
    requires events != []
    requires var n := |events| - 1;
             && events[n] == Start(args.candidate) && IsNode(Run(c, events[..n]), args.candidate)
             && var node := Run(c, events[..n]).nodes[args.candidate];
                args == VoteRequest(node.term + 1, args.candidate, node.log.last, node.log.lastTerm)
    ensures SentAt(c, events, args, |events| - 1)
  {
  }

  lemma VoteStep(c: Cluster, e: Event, v: Vote)
    requires v in Step(c, e).cast && v !in c.cast && v.voter != v.candidate
    ensures e.Deliver? && IsNode(c, v.voter) && Request(v.voter, e.args) in c.net
    ensures e.voter == v.voter && e.args.candidate == v.candidate && e.args.term == v.term
    ensures Voted(c.nodes[v.voter], e.args).1.granted
  {
  }

  /** Whoever votes for another node does so on a request which that node sent when it
      stood, with a log that does not end before the voter's at the time of the vote,
      unless the voter's log is empty. */
  lemma VotesFollowLogs(c: Cluster, events: seq<Event>, v: Vote) returns (i: nat, args: VoteRequest)
    requires Booted(c) && events != []
    requires v in Run(c, events).cast && v !in Run(c, events[..|events| - 1]).cast && v.voter != v.candidate
    ensures var before := Run(c, events[..|events| - 1]);
            && args.candidate == v.candidate && args.term == v.term
            && SentAt(c, events, args, i)
            && IsNode(before, v.voter)
            && var log := before.nodes[v.voter].log;
               log.first <= log.last ==> !EndsBefore(args.lastLogTerm, args.lastLogIndex, log.lastTerm, log.last)
  {
    hide Step, SentAt, Booted, Voted;
    var n := |events| - 1;
    var before := Run(c, events[..n]);
    VoteStep(before, events[n], v);
    args := events[n].args;
    GrantedIff(before.nodes[v.voter], args);
    i := RequestsWereSent(c, events[..n], v.voter, args);
    SentEarlier(c, events, args, i);
  }

  // ----- A cluster of one -----

  lemma AloneStep(c: Cluster, e: Event)
    requires |c.nodes| == 1 && c.waiting == {} && c.wins == {}
    ensures var c' := Step(c, e); |c'.nodes| == 1 && c'.waiting == {} && c'.wins == {}
  {
    forall n | n == 0 ensures CallsOf(c, n, Started(c.nodes[0], 0).term) == {} { }
  }

  /** A single node never becomes leader: there is no one whose reply it could count. */
  lemma {:induction false} AloneNeverLeads(c: Cluster, events: seq<Event>)
    requires Booted(c) && |c.nodes| == 1
    ensures var d := Run(c, events); |d.nodes| == 1 && d.waiting == {} && d.wins == {}
  {
    if events != [] {
      hide Step;
      AloneNeverLeads(c, events[..|events| - 1]);
      AloneStep(Run(c, events[..|events| - 1]), events[|events| - 1]);
    }
  }

  // ----- The leader role -----

  ghost predicate HasWon(c: Cluster, n: int, term: int) {
    exists w :: w in c.wins && w.node == n && w.term == term
  }

  /** Every node in the leader role has won its present term. */
  ghost predicate LeadersWon(c: Cluster) {
    forall n :: 0 <= n < |c.nodes| && c.nodes[n].role == Leader ==> HasWon(c, n, c.nodes[n].term)
  }

  /** A win is not ahead of the winner's term. */
  ghost predicate WinsPast(c: Cluster) {
    forall w :: w in c.wins ==> 0 <= w.node < |c.nodes| && w.term <= c.nodes[w.node].term
  }

  /** A live leader is about to be handed a vote request with a newer term. */
  ghost predicate Unseats(c: Cluster, e: Event) {
    && e.Deliver? && IsNode(c, e.voter) && Request(e.voter, e.args) in c.net
    && c.nodes[e.voter].role == Leader && !c.nodes[e.voter].dead && e.args.term > c.nodes[e.voter].term
  }

  /** Where a node is leader after a step, it was leader of the same term before, or it
      has just won it, or the step was a newer vote request. */
  lemma RoleStep(c: Cluster, e: Event, n: int)
    requires IsNode(c, n)
    ensures var c' := Step(c, e);
            && IsNode(c', n)
            && (c'.nodes[n].role == Leader && !Unseats(c, e) ==>
                  || (c.nodes[n].role == Leader && c'.nodes[n].term == c.nodes[n].term)
                  || HasWon(c', n, c'.nodes[n].term))
  {
    var c' := Step(c, e);
    if e.Count? && c'.wins != c.wins {
      var w := Win(e.call.candidate, e.call.term, c'.counted[e.call.candidate]);
      assert w in c'.wins;
    }
  }

  lemma WinsGrow(c: Cluster, e: Event)
    ensures c.wins <= Step(c, e).wins
  {
  }

  lemma WinsStayPast(c: Cluster, e: Event)
    requires Inv(c) && WinsPast(c)
    ensures WinsPast(Step(c, e))
  {
    var c' := Step(c, e);
    forall w | w in c'.wins ensures 0 <= w.node < |c'.nodes| && w.term <= c'.nodes[w.node].term {
      if w in c.wins {
        NodeDiskInStep(c, w.node);
        hide Step;
        TermStep(c, e, w.node);
      }
    }
  }

  /** After a step every leader has won its present term exactly when the step did not
      hand a live leader a vote request with a newer term. */
  lemma LeadersWonStepIff(c: Cluster, e: Event)
    requires Inv(c) && WinsPast(c) && LeadersWon(c)
    ensures LeadersWon(Step(c, e)) <==> !Unseats(c, e)
  {
    var c' := Step(c, e);
    if Unseats(c, e) {
      LeaderOutlivesItsTermIff(c.nodes[e.voter], e.args);
      assert c'.nodes[e.voter].term > c.nodes[e.voter].term && c'.wins == c.wins;
    } else {
      assert |c'.nodes| == |c.nodes| == |c.counted|;
      WinsGrow(c, e);
      forall n | 0 <= n < |c'.nodes| && c'.nodes[n].role == Leader ensures HasWon(c', n, c'.nodes[n].term) {
        hide Step;
        RoleStep(c, e, n);
      }
    }
  }

  ghost predicate NeverUnseats(c: Cluster, events: seq<Event>) {
    forall j :: 0 <= j < |events| ==> !Unseats(Run(c, events[..j]), events[j])
  }

  ghost predicate BootedFollowers(c: Cluster) {
    Booted(c) && forall n :: 0 <= n < |c.nodes| ==> c.nodes[n].role == Follower
  }

  lemma {:induction false} RunWinsPast(c: Cluster, events: seq<Event>)
    requires Booted(c)
    ensures Inv(Run(c, events)) && WinsPast(Run(c, events))
  {
    assert Inv(c);
    if events != [] {
      hide Inv, Step, WinsPast, Booted;
      var d := Run(c, events[..|events| - 1]);
      RunWinsPast(c, events[..|events| - 1]);
      StepKeepsInv(d, events[|events| - 1]);
      WinsStayPast(d, events[|events| - 1]);
    }
  }

  lemma {:induction false} LeadersHaveWon(c: Cluster, events: seq<Event>)
    requires BootedFollowers(c) && NeverUnseats(c, events)
    ensures LeadersWon(Run(c, events))
  {
    if events != [] {
      hide Inv, Step, WinsPast, LeadersWon, Unseats;
      var n := |events| - 1;
      assert forall j :: 0 <= j < n ==> events[..n][..j] == events[..j];
      LeadersHaveWon(c, events[..n]);
      RunWinsPast(c, events[..n]);
      LeadersWonStepIff(Run(c, events[..n]), events[n]);
    }
  }

  /** All along a run every node in the leader role has won its present term, exactly
      when no live leader is ever handed a vote request with a newer term. */
  lemma LeadersAlwaysWonIff(c: Cluster, events: seq<Event>)
    requires BootedFollowers(c)
    ensures (forall j :: 0 <= j <= |events| ==> LeadersWon(Run(c, events[..j]))) <==> NeverUnseats(c, events)
  {
    hide Inv, Step, WinsPast, LeadersWon, Unseats, Run;
    if NeverUnseats(c, events) {
      forall j | 0 <= j <= |events| ensures LeadersWon(Run(c, events[..j])) {
        assert forall i :: 0 <= i < j ==> events[..j][..i] == events[..i];
        LeadersHaveWon(c, events[..j]);
      }
    }
    if forall j :: 0 <= j <= |events| ==> LeadersWon(Run(c, events[..j])) {
      forall j | 0 <= j < |events| ensures !Unseats(Run(c, events[..j]), events[j]) {
        RunWinsPast(c, events[..j]);
        RunOneMore(c, events, j);
        LeadersWonStepIff(Run(c, events[..j]), events[j]);
      }
    }
  }

  lemma RunOneMore(c: Cluster, events: seq<Event>, j: nat)
    requires j < |events|
    ensures Run(c, events[..j + 1]) == Step(Run(c, events[..j]), events[j])
  {
    hide Step;
    assert events[..j + 1][..j] == events[..j];
  }

  /** In such a run no term ever has two nodes in the leader role. */
  lemma OneLeaderPerTerm(c: Cluster, events: seq<Event>, m: int, n: int)
    requires BootedFollowers(c) && NeverUnseats(c, events)
    requires var d := Run(c, events);
             && IsNode(d, m) && IsNode(d, n)
             && d.nodes[m].role == Leader && d.nodes[n].role == Leader && d.nodes[m].term == d.nodes[n].term
    ensures m == n
  {
    LeadersHaveWon(c, events);
    hide Run, NeverUnseats;
    var d := Run(c, events);
    assert HasWon(d, m, d.nodes[m].term) && HasWon(d, n, d.nodes[n].term);
    var w :| w in d.wins && w.node == m && w.term == d.nodes[m].term;
    var w' :| w' in d.wins && w'.node == n && w'.term == d.nodes[n].term;
    ElectionSafety(c, events, w, w');
  }

  function ThreeNodes(): Cluster {
    var node := Restarted(Ballot(0, NONE), LogEnd(0, -1, 0));
    Cluster([node, node, node], {}, {}, {}, [{}, {}, {}], {})
  }

  /** Node n stands, voter v grants, n counts the vote. */
  ghost function Elect(c: Cluster, n: int, v: int, args: VoteRequest): Cluster {
    Step(Step(Step(c, Start(n)), Deliver(v, args)), Count(Call(n, args.term, v), VoteReply(args.term, true)))
  }

  lemma ElectIn(c: Cluster, n: int, v: int, args: VoteRequest)
    requires |c.nodes| == |c.counted| == 3 && 0 <= n < 3 && 0 <= v < 3 && n != v
    requires args == RequestOf(Started(c.nodes[n], n), n)
    requires Voted(c.nodes[v], args).1 == VoteReply(args.term, true)
    ensures var d := Elect(c, n, v, args);
            && |d.nodes| == |d.counted| == 3
            && d.nodes[n].role == Leader && d.nodes[n].term == args.term
            && d.nodes[v] == Voted(c.nodes[v], args).0
            && (forall k :: 0 <= k < 3 && k != n && k != v ==> d.nodes[k] == c.nodes[k])
            && d.nodes[n].log == c.nodes[n].log && !d.nodes[n].dead == !c.nodes[n].dead
            && d.wins == c.wins + {Win(n, args.term, {n, v})}
  {
    var c1 := Step(c, Start(n));
    assert Request(v, args) in c1.net && Call(n, args.term, v) in c1.waiting;
    var c2 := Step(c1, Deliver(v, args));
    assert Reply(Call(n, args.term, v), VoteReply(args.term, true)) in c2.net && c2.nodes[n] == Started(c.nodes[n], n);
    assert {n} + {v} == {n, v};
  }

  /** Uniqueness is a property of election wins, not of the role field: node 0 wins
      term 1, votes for node 1 in term 2 without stepping down, and then both stand as
      leader in term 2. */
  lemma TwoLeadersInOneTerm()
    ensures var c := Elect(ThreeNodes(), 0, 1, VoteRequest(1, 0, -1, 0));
            var d := Elect(c, 1, 0, VoteRequest(2, 1, -1, 0));
            && Booted(ThreeNodes())
            && d.wins == {Win(0, 1, {0, 1}), Win(1, 2, {0, 1})}
            && |d.nodes| == 3
            && d.nodes[0].role == Leader && d.nodes[0].term == 2
            && d.nodes[1].role == Leader && d.nodes[1].term == 2
  {
    hide Elect;
    ElectIn(ThreeNodes(), 0, 1, VoteRequest(1, 0, -1, 0));
    var c := Elect(ThreeNodes(), 0, 1, VoteRequest(1, 0, -1, 0));
    ElectIn(c, 1, 0, VoteRequest(2, 1, -1, 0));
    assert {1, 0} == {0, 1};
  }
}
