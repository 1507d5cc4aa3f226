/**
 * Nothing is missed: over every run a node has replied to a digest exactly when enough
 * Commits for it were delivered to it, and commits only to the proposal that is its turn.
 */
module PbftProgress {
  import opened PbftNodes
  import opened PbftSystem
  import opened PbftOrder

  // ----- quorums are acted on at once -------------------------------------------------

  ghost predicate QuorumsActed(n: Node) {
    (forall d :: d in n.committed <==> d in n.prepares && |n.prepares[d]| >= PrepareQuorum(n)) &&
    (forall d :: d in n.replied <==> d in n.commits && |n.commits[d]| >= 2 * n.f)
  }

  lemma VoteAdds(votes: Votes, d: Digest, p: Pointer)
    ensures d in WithVote(votes, d, p) && |WithVote(votes, d, p)[d]| >= |VotesFor(votes, d)|
    ensures forall e :: e != d ==>
      (e in WithVote(votes, d, p) <==> e in votes) && VotesFor(WithVote(votes, d, p), e) == VotesFor(votes, e)
  {
    Larger(VotesFor(votes, d), p);
  }

  lemma Larger<T>(s: set<T>, x: T)
    ensures |s + {x}| >= |s|
  {
    if x in s { assert s + {x} == s; }
  }

  lemma PrepareActs(n: Node, m: Message, p: Pointer)
    requires m.Prepare? && QuorumsActed(n)
    ensures QuorumsActed(PrepareStep(n, m, p).node)
  {
    VoteAdds(n.prepares, m.digest, p);
  }

  lemma CommitActs(n: Node, m: Message, p: Pointer)
    requires m.Commit? && QuorumsActed(n)
    ensures QuorumsActed(CommitStep(n, m, p).node)
  {
    CommitDoes(n, m, p);
    VoteAdds(n.commits, m.digest, p);
    var o := CommitStep(n, m, p).node;
    forall d ensures d in o.replied <==> d in o.commits && |o.commits[d]| >= 2 * o.f {
      CommitReplies(n, m, p, d);
      assert d != m.digest && d in n.commits ==> o.commits[d] == n.commits[d];
    }
  }

  /** A Commit is always counted, and answered once the count suffices. */
  lemma CommitDoes(n: Node, m: Message, p: Pointer)
    requires m.Commit?
    ensures var o := CommitStep(n, m, p).node;
            && o.commits == WithVote(n.commits, m.digest, p)
            && o.prepares == n.prepares && o.committed == n.committed
            && o.f == n.f && o.id == n.id && o.view == n.view
  {
  }

  lemma CommitReplies(n: Node, m: Message, p: Pointer, d: Digest)
    requires m.Commit?
    ensures var o := CommitStep(n, m, p).node;
            d in o.replied <==>
            (d in n.replied || (d == m.digest && |VotesFor(WithVote(n.commits, m.digest, p), d)| >= 2 * n.f))
  {
  }

  lemma HandleActs(n: Node, m: Message, k: nat)
    requires QuorumsActed(n)
    ensures QuorumsActed(Handle(n, m, k).node)
  {
    match m
    case PrePrepare(_, _, _) =>
    case Prepare(_, _, j) => PrepareActs(n, m, Pointer(k, j));
    case Commit(_, _, j) => CommitActs(n, m, Pointer(k, j));
  }

  // ----- every delivered Commit is counted ----------------------------------------------

  ghost predicate CommitsCounted(log: seq<Message>, delivered: set<(nat, nat)>, n: Node, i: nat) {
    forall k: nat :: k < |log| && log[k].Commit? && (k, i) in delivered ==>
      Pointer(k, log[k].sender) in VotesFor(n.commits, log[k].digest)
  }

  ghost predicate Progress(c: Config, s: System) {
    (forall x :: x in s.delivered ==> x.0 < |s.log|) &&
    (forall i :: 0 <= i < |s.nodes| ==>
      s.nodes[i].f == Faults(c) && QuorumsActed(s.nodes[i]) && CommitsCounted(s.log, s.delivered, s.nodes[i], i))
  }

  lemma HandleCountsCommit(n: Node, m: Message, k: nat, d: Digest)
    ensures VotesFor(n.commits, d) <= VotesFor(Handle(n, m, k).node.commits, d)
    ensures m.Commit? ==> Pointer(k, m.sender) in VotesFor(Handle(n, m, k).node.commits, m.digest)
    ensures Handle(n, m, k).node.f == n.f
  {
    if m.Commit? {
      CommitDoes(n, m, Pointer(k, m.sender));
      VoteKept(n.commits, m.digest, Pointer(k, m.sender), d);
      VoteKept(n.commits, m.digest, Pointer(k, m.sender), m.digest);
    } else {
      OthersKeepCommits(n, m, k);
    }
  }

  lemma VoteKept(votes: Votes, e: Digest, p: Pointer, d: Digest)
    ensures VotesFor(votes, d) <= VotesFor(WithVote(votes, e, p), d)
    ensures p in VotesFor(WithVote(votes, e, p), e)
  {
  }

  lemma OthersKeepCommits(n: Node, m: Message, k: nat)
    requires !m.Commit?
    ensures Handle(n, m, k).node.commits == n.commits && Handle(n, m, k).node.f == n.f
  {
  }

  lemma DeliveryProgress(c: Config, s: System, k: nat, i: nat)
    requires Progress(c, s) && Enabled(c, s, Delivery(k, i))
    ensures Progress(c, Step(c, s, Delivery(k, i)))
  {
    var s', m := Step(c, s, Delivery(k, i)), s.log[k];
    HandleActs(s.nodes[i], m, k);
    HandleCountsCommit(s.nodes[i], m, k, m.digest);
    forall j | 0 <= j < |s'.nodes|
      ensures s'.nodes[j].f == Faults(c) && QuorumsActed(s'.nodes[j]) &&
              CommitsCounted(s'.log, s'.delivered, s'.nodes[j], j)
    {
      forall x: nat | x < |s'.log| && s'.log[x].Commit? && (x, j) in s'.delivered
        ensures Pointer(x, s'.log[x].sender) in VotesFor(s'.nodes[j].commits, s'.log[x].digest)
      {
        assert x < |s.log| && s'.log[x] == s.log[x];
        if j == i { HandleCountsCommit(s.nodes[i], m, k, s.log[x].digest); }
      }
    }
  }

  lemma ProposalProgress(c: Config, s: System, r: Request)
    requires Progress(c, s) && Enabled(c, s, Proposal(r))
    ensures Progress(c, Step(c, s, Proposal(r)))
  {
    var s' := Step(c, s, Proposal(r));
    forall j | 0 <= j < |s'.nodes| ensures CommitsCounted(s'.log, s'.delivered, s'.nodes[j], j) {
      forall x: nat | x < |s'.log| && s'.log[x].Commit? && (x, j) in s'.delivered
        ensures Pointer(x, s'.log[x].sender) in VotesFor(s'.nodes[j].commits, s'.log[x].digest)
      {
        assert x < |s.log| && s'.log[x] == s.log[x];
      }
    }
  }

  lemma {:induction false} RunProgress(c: Config, states: seq<System>, events: seq<Event>, t: nat)
    requires Run(c, states, events) && t < |states|
    ensures Progress(c, states[t])
  {
    if t > 0 {
      RunProgress(c, states, events, t - 1);
      match events[t - 1]
      case Proposal(r) => ProposalProgress(c, states[t - 1], r);
      case Delivery(k, i) => DeliveryProgress(c, states[t - 1], k, i);
    }
  }

  /** The Commits for a digest that were delivered to node `i`. */
  ghost function CommitsTo(s: System, i: nat, d: Digest): set<nat> {
    set k: nat | k < |s.log| && s.log[k].Commit? && s.log[k].digest == d && (k, i) in s.delivered
  }

  /** A set of pointers is as large as the set of their serials, if these differ. */
  lemma {:induction false} SerialsCount(ps: set<Pointer>, ks: set<nat>)
    requires forall p, q :: p in ps && q in ps && p.serial == q.serial ==> p == q
    requires forall p :: p in ps ==> p.serial in ks
    requires forall k :: k in ks ==> exists p :: p in ps && p.serial == k
    ensures |ps| == |ks|
    decreases ps
  {
    if ps == {} {
      assert ks == {};
    } else {
      var p :| p in ps;
      SerialsCount(ps - {p}, ks - {p.serial});
    }
  }

  lemma CountedExactly(c: Config, s: System, i: nat, d: Digest)
    requires Inv(c, s) && Progress(c, s) && i < |s.nodes|
    ensures |VotesFor(s.nodes[i].commits, d)| == |CommitsTo(s, i, d)|
  {
    var n, ps, ks := s.nodes[i], VotesFor(s.nodes[i].commits, d), CommitsTo(s, i, d);
    assert NodeOk(c, s.log, s.delivered, n, i);
    forall p | p in ps ensures p.serial in ks && p == Pointer(p.serial, s.log[p.serial].sender) {
      assert VoteOk(s.log, s.delivered, n.id, p, d, false);
    }
    forall k | k in ks ensures exists p :: p in ps && p.serial == k {
      assert Pointer(k, s.log[k].sender) in ps;
    }
    SerialsCount(ps, ks);
  }

  /**
   * MAIN: over every run, a node has replied to a digest if and only if a Commit for it was
   * delivered and, with that, at least 2f of them were.
   */
  lemma RepliedIff(c: Config, states: seq<System>, events: seq<Event>, t: nat, i: nat, d: Digest)
    requires Run(c, states, events) && t < |states| && i < c.nodeNums
    ensures var s := states[t];
            i < |s.nodes| &&
            (d in s.nodes[i].replied <==> CommitsTo(s, i, d) != {} && |CommitsTo(s, i, d)| >= 2 * Faults(c))
  {
    RunKeeps(c, states, events, t);
    RunProgress(c, states, events, t);
    var s := states[t];
    var n := s.nodes[i];
    CountedExactly(c, s, i, d);
    assert QuorumsActed(n) && CommitsCounted(s.log, s.delivered, n, i);
    if d in n.commits && CommitsTo(s, i, d) == {} { EmptyVotes(c, states, events, t, i, d); }
  }

  /** A digest is in the vote map only with a vote. */
  lemma {:induction false} EmptyVotes(c: Config, states: seq<System>, events: seq<Event>, t: nat, i: nat, d: Digest)
    requires Run(c, states, events) && t < |states| && i < |states[t].nodes| && d in states[t].nodes[i].commits
    ensures states[t].nodes[i].commits[d] != {}
  {
    if t > 0 {
      var s, e := states[t - 1], events[t - 1];
      if d in s.nodes[i].commits { EmptyVotes(c, states, events, t - 1, i, d); }
      if e.Delivery? && e.to == i {
        HandleCountsCommit(s.nodes[i], s.log[e.serial], e.serial, d);
      }
    }
  }

  /** MAIN: so the leader has applied exactly the digests that 2f Commits reached it for. */
  lemma LeaderAppliesIff(c: Config, states: seq<System>, events: seq<Event>, t: nat, d: Digest)
    requires Run(c, states, events) && t < |states|
    ensures var s := states[t];
            c.leader < |s.nodes| &&
            (d in s.nodes[c.leader].applied <==>
             CommitsTo(s, c.leader, d) != {} && |CommitsTo(s, c.leader, d)| >= 2 * Faults(c))
  {
    RunKeeps(c, states, events, t);
    RepliedIff(c, states, events, t, c.leader, d);
  }

  // ----- Prepares out of turn -------------------------------------------------------------

  /** A Prepare is counted if and only if it carries the node's own sequence id and the
      request is in the pool; nothing else of the node changes unless it commits. */
  lemma PrepareCountedIff(n: Node, m: Message, k: nat)
    requires m.Prepare? && Pointer(k, m.sender) !in VotesFor(n.prepares, m.digest)
    ensures var o := Handle(n, m, k);
            Pointer(k, m.sender) in VotesFor(o.node.prepares, m.digest) <==>
            m.seqId == n.seqId && m.digest in n.pool
  {
  }

  /**
   * MAIN: over every run, a node broadcasts a Commit only for the proposal whose number is
   * one more than it has applied, whatever is delivered to it and in whatever order.
   */
  lemma CommitsInTurn(c: Config, states: seq<System>, events: seq<Event>, t: nat, k: nat)
    requires Run(c, states, events) && t < |events| && |states[t].log| <= k < |states[t + 1].log|
    requires states[t + 1].log[k].Commit?
    ensures var m := states[t + 1].log[k];
            m.sender < |states[t].nodes| &&
            m.seqId == c.height + 1 + |states[t].nodes[m.sender].applied| &&
            exists p :: 0 <= p < |Proposals(states[t].log)| && Proposals(states[t].log)[p] == m.digest &&
                        p == |states[t].nodes[m.sender].applied|
  {
    var s, e, x := states[t], events[t], states[t + 1].log[k];
    RunKeeps(c, states, events, t);
    RunNumbers(c, states, events, t);
    SentBy(c, s, e, k);
    assert NodeOk(c, s.log, s.delivered, s.nodes[e.to], e.to) && Numbered(c, s.log, s.log[e.serial]);
    CommitSent(s.nodes[e.to], s.log[e.serial], e.serial, x);
  }

  /** A new Commit was sent by the receiver of a delivery. */
  lemma SentBy(c: Config, s: System, e: Event, k: nat)
    requires Enabled(c, s, e) && |s.log| <= k < |Step(c, s, e).log| && Step(c, s, e).log[k].Commit?
    ensures e.Delivery? && Step(c, s, e).log[k] in Handle(s.nodes[e.to], s.log[e.serial], e.serial).sent
  {
  }

  lemma CommitSent(n: Node, m: Message, k: nat, x: Message)
    requires x in Handle(n, m, k).sent && x.Commit?
    ensures m.Prepare? && x.digest == m.digest && x.sender == n.id && x.seqId == m.seqId == n.seqId
  {
  }

  // ----- who is held back ------------------------------------------------------------------

  /** What a handler does to the stage: a finished round starts over, a proposal or a Commit
      of one's own goes one further. */
  lemma StageStep(n: Node, m: Message, k: nat)
    ensures var o := Handle(n, m, k).node;
            o.stage == if o.replied != n.replied then 1
                       else n.stage + if m.PrePrepare? || o.committed != n.committed then 1 else 0
  {
    match m
    case PrePrepare(_, _, _) =>
    case Prepare(_, _, _) => StagePrepare(n, m, k);
    case Commit(_, _, _) => StageCommit(n, m, k);
  }

  lemma StagePrepare(n: Node, m: Message, k: nat)
    requires m.Prepare?
    ensures var o := Handle(n, m, k).node;
            o.replied == n.replied && o.stage == n.stage + if o.committed != n.committed then 1 else 0
  {
    var o := Handle(n, m, k);
    assert o.sent != [] ==> m.digest in o.node.committed && m.digest !in n.committed;
  }

  lemma StageCommit(n: Node, m: Message, k: nat)
    requires m.Commit?
    ensures var o := Handle(n, m, k).node;
            o.committed == n.committed && o.stage == if o.replied != n.replied then 1 else n.stage
  {
    var o := Handle(n, m, k).node;
    CommitDoes(n, m, Pointer(k, m.sender));
    assert o.stage != n.stage || o.replied != n.replied ==> m.digest in o.replied && m.digest !in n.replied;
  }

  /** The proposals that node `i` handled and the Commits it sent since it last finished. */
  ghost function Raises(states: seq<System>, events: seq<Event>, i: nat, t: nat): nat
    requires |states| == |events| + 1 && t < |states|
    requires forall u :: 0 <= u < |states| ==> i < |states[u].nodes|
  {
    if t == 0 then 0
    else
      var n, o, e := states[t - 1].nodes[i], states[t].nodes[i], events[t - 1];
      if o.replied != n.replied then 0
      else
        Raises(states, events, i, t - 1) +
        if o.committed != n.committed || ToldProposal(states[t - 1], e, i) then 1 else 0
  }

  ghost predicate ToldProposal(s: System, e: Event, i: nat) {
    e.Delivery? && e.to == i && e.serial < |s.log| && s.log[e.serial].PrePrepare?
  }

  lemma {:induction false} NodesStay(c: Config, states: seq<System>, events: seq<Event>, t: nat)
    requires Run(c, states, events) && t < |states|
    ensures |states[t].nodes| == c.nodeNums
  {
    if t > 0 { NodesStay(c, states, events, t - 1); }
  }

  lemma {:induction false} StageIs(c: Config, states: seq<System>, events: seq<Event>, i: nat, t: nat)
    requires Run(c, states, events) && t < |states| && i < c.nodeNums && i != c.leader
    requires forall u :: 0 <= u < |states| ==> i < |states[u].nodes|
    ensures states[t].nodes[i].stage == 1 + Raises(states, events, i, t)
  {
    if t > 0 {
      StageIs(c, states, events, i, t - 1);
      var s, e := states[t - 1], events[t - 1];
      if e.Delivery? && e.to == i { StageStep(s.nodes[i], s.log[e.serial], e.serial); }
    }
  }

  /**
   * MAIN: over every run, a follower holds a message back if and only if it is not out of
   * date and, since the follower last finished a round, it has handled no proposal yet (for a
   * Prepare), or not two proposals nor one and sent a Commit (for a Commit).
   */
  lemma HeldBackIff(c: Config, states: seq<System>, events: seq<Event>, i: nat, t: nat, m: Message)
    requires Run(c, states, events) && t < |states| && i < c.nodeNums && i != c.leader
    ensures forall u :: 0 <= u < |states| ==> i < |states[u].nodes|
    ensures var n := states[t].nodes[i];
            Waits(n, m) <==>
            (m.seqId >= n.seqId &&
             Raises(states, events, i, t) < (if m.PrePrepare? then 0 else if m.Prepare? then 1 else 2))
  {
    forall u | 0 <= u < |states| ensures i < |states[u].nodes| { NodesStay(c, states, events, u); }
    StageIs(c, states, events, i, t);
  }
}
