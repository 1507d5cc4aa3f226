/**
 * All nodes of a shard exchanging broadcasts under one fixed leader: nodes are
 * benign, and a broadcast reaches a node other than its sender at most once, in
 * any order and after any delay.
 */
module PbftSystem {
  import opened PbftNodes

  datatype Config = Config(nodeNums: nat, leader: nat, height: nat)

  function Faults(c: Config): nat {
    if c.nodeNums == 0 then 0 else (c.nodeNums - 1) / 3
  }

  /** `log` holds every broadcast ever made; `delivered` the pairs (position in the log, receiver). */
  datatype System = System(nodes: seq<Node>, log: seq<Message>, delivered: set<(nat, nat)>)

  datatype Event = Proposal(r: Request) | Delivery(serial: nat, to: nat)

  function Sender(c: Config, m: Message): nat {
    if m.PrePrepare? then c.leader else m.sender
  }

  ghost predicate Proposed(log: seq<Message>, d: Digest) {
    exists k :: 0 <= k < |log| && log[k].PrePrepare? && log[k].digest == d
  }

  /** The nodes that broadcast Prepare, or Commit, for a digest. */
  ghost function Preparers(log: seq<Message>, d: Digest): set<nat> {
    set k | 0 <= k < |log| && log[k].Prepare? && log[k].digest == d :: log[k].sender
  }

  ghost function Committers(log: seq<Message>, d: Digest): set<nat> {
    set k | 0 <= k < |log| && log[k].Commit? && log[k].digest == d :: log[k].sender
  }

  function Start(c: Config, i: nat): Node {
    Node(i, c.leader, Faults(c), c.height + 1, 1, {}, map[], map[], map[], {}, {}, false, 0, [])
  }

  ghost predicate Init(c: Config, s: System) {
    c.leader < c.nodeNums && |s.nodes| == c.nodeNums && s.log == [] && s.delivered == {} &&
    forall i :: 0 <= i < |s.nodes| ==> s.nodes[i] == Start(c, i)
  }

  /** Proposals need the sequence lock and have new digests; nothing is delivered twice. */
  ghost predicate Enabled(c: Config, s: System, e: Event) {
    c.leader < |s.nodes| &&
    match e
    case Proposal(r) => !s.nodes[c.leader].locked && !Proposed(s.log, r.digest)
    case Delivery(k, i) =>
      k < |s.log| && i < |s.nodes| && i != Sender(c, s.log[k]) && (k, i) !in s.delivered &&
      !Waits(s.nodes[i], s.log[k])
  }

  ghost function Step(c: Config, s: System, e: Event): System
    requires Enabled(c, s, e)
  {
    match e
    case Proposal(r) =>
      var o := ProposeStep(s.nodes[c.leader], r);
      System(s.nodes[c.leader := o.node], s.log + o.sent, s.delivered)
    case Delivery(k, i) =>
      var o := Handle(s.nodes[i], s.log[k], k);
      System(s.nodes[i := o.node], s.log + o.sent, s.delivered + {(k, i)})
  }

  /** A run: states and the events between them. */
  ghost predicate Run(c: Config, states: seq<System>, events: seq<Event>) {
    |states| == |events| + 1 && Init(c, states[0]) &&
    forall t :: 0 <= t < |events| ==>
      Enabled(c, states[t], events[t]) && states[t + 1] == Step(c, states[t], events[t])
  }

  // ----- what every log satisfies ------------------------------------------------

  /** A Prepare answers a proposal that was delivered to its sender, a backup. */
  ghost predicate Answers(log: seq<Message>, delivered: set<(nat, nat)>, d: Digest, b: nat) {
    exists k: nat :: k < |log| && log[k].PrePrepare? && log[k].digest == d && (k, b) in delivered
  }

  ghost predicate EntryOk(c: Config, log: seq<Message>, delivered: set<(nat, nat)>, m: Message) {
    match m
    case PrePrepare(r, d, _) => r.digest == d
    case Prepare(d, _, b) => b != c.leader && Answers(log, delivered, d, b)
    case Commit(d, _, _) => Proposed(log, d) && |Preparers(log, d)| >= 2 * Faults(c)
  }

  /** Same kind, same digest: then the senders differ, and no digest is proposed twice. */
  ghost predicate Different(m: Message, m': Message) {
    m.digest == m'.digest ==>
      !(m.PrePrepare? && m'.PrePrepare?) &&
      (m.Prepare? && m'.Prepare? ==> m.sender != m'.sender) &&
      (m.Commit? && m'.Commit? ==> m.sender != m'.sender)
  }

  ghost predicate LogOk(c: Config, log: seq<Message>, delivered: set<(nat, nat)>) {
    (forall k :: 0 <= k < |log| ==> EntryOk(c, log, delivered, log[k])) &&
    (forall j, k :: 0 <= j < k < |log| ==> Different(log[j], log[k]))
  }

  // ----- what every node satisfies -------------------------------------------------

  /** A vote stands for a message of the log, delivered to node `i` and sent by another. */
  ghost predicate VoteOk(log: seq<Message>, delivered: set<(nat, nat)>, i: nat, p: Pointer, d: Digest, prepare: bool) {
    p.serial < |log| && (p.serial, i) in delivered && p.sender != i &&
    (if prepare then log[p.serial].Prepare? else log[p.serial].Commit?) &&
    log[p.serial].digest == d && log[p.serial].sender == p.sender
  }

  ghost predicate VotesOk(log: seq<Message>, delivered: set<(nat, nat)>, n: Node) {
    (forall d, p :: p in VotesFor(n.prepares, d) ==> VoteOk(log, delivered, n.id, p, d, true)) &&
    (forall d, p :: p in VotesFor(n.commits, d) ==> VoteOk(log, delivered, n.id, p, d, false))
  }

  /** An applied digest was proposed, and 2f other nodes committed to it. */
  ghost predicate Justified(c: Config, log: seq<Message>, i: nat, d: Digest) {
    Proposed(log, d) && |Committers(log, d) - {i}| >= 2 * Faults(c)
  }

  ghost predicate NodeOk(c: Config, log: seq<Message>, delivered: set<(nat, nat)>, n: Node, i: nat) {
    n.id == i && n.view == c.leader && n.f == Faults(c) &&
    VotesOk(log, delivered, n) &&
    (forall d :: d in n.pool ==> Proposed(log, d) && (i != c.leader ==> i in Preparers(log, d))) &&
    (forall d :: i in Committers(log, d) ==> d in n.committed) &&
    (forall d :: d in n.applied ==> d in n.replied && Justified(c, log, i, d)) &&
    (forall j, k :: 0 <= j < k < |n.applied| ==> n.applied[j] != n.applied[k])
  }

  /** The digests the leader proposed, in order. */
  function Proposals(log: seq<Message>): (digests: seq<Digest>)
  {
    if log == [] then []
    else Proposals(log[..|log| - 1]) + if log[|log| - 1].PrePrepare? then [log[|log| - 1].digest] else []
  }

  /** The leader's pool is its one unapplied proposal, held exactly as long as the sequence lock. */
  ghost predicate LeaderOk(log: seq<Message>, n: Node) {
    (forall d :: Proposed(log, d) ==> (d in n.pool <==> d !in n.replied)) &&
    (forall d :: d in n.replied <==> d in n.applied) &&
    (forall d :: d in n.pool ==> Proposed(log, d)) &&
    (forall d, d' :: d in n.pool && d' in n.pool ==> d == d') &&
    (n.locked <==> n.pool != {}) &&
    n.unlocks == |n.applied| && n.applied <= Proposals(log) &&
    |Proposals(log)| == n.unlocks + (if n.locked then 1 else 0) &&
    (forall d :: d in n.pool ==> |n.applied| < |Proposals(log)| && Proposals(log)[|n.applied|] == d)
  }

  ghost predicate Inv(c: Config, s: System) {
    c.leader < c.nodeNums == |s.nodes| && LogOk(c, s.log, s.delivered) &&
    (forall i :: 0 <= i < |s.nodes| ==> NodeOk(c, s.log, s.delivered, s.nodes[i], i)) &&
    LeaderOk(s.log, s.nodes[c.leader])
  }

  // ----- growing logs -----------------------------------------------------------------

  lemma ProposedGrows(log: seq<Message>, more: seq<Message>, d: Digest)
    requires Proposed(log, d)
    ensures Proposed(log + more, d)
  {
    var k :| 0 <= k < |log| && log[k].PrePrepare? && log[k].digest == d;
    assert (log + more)[k] == log[k];
  }

  lemma Extended(log: seq<Message>, m: Message, d: Digest)
    ensures Proposed(log + [m], d) <==> Proposed(log, d) || (m.PrePrepare? && m.digest == d)
    ensures Preparers(log + [m], d) == Preparers(log, d) + if m.Prepare? && m.digest == d then {m.sender} else {}
    ensures Committers(log + [m], d) == Committers(log, d) + if m.Commit? && m.digest == d then {m.sender} else {}
    ensures Proposals(log + [m]) == Proposals(log) + if m.PrePrepare? then [m.digest] else []
  {
    var more := log + [m];
    assert more[..|log|] == log && more[|log|] == m;
    if Proposed(log, d) { ProposedGrows(log, [m], d); }
    forall k | 0 <= k < |log| ensures more[k] == log[k] { }
    forall b | b in Preparers(log, d) ensures b in Preparers(more, d) {
      var k :| 0 <= k < |log| && log[k].Prepare? && log[k].digest == d && log[k].sender == b;
      assert more[k] == log[k];
    }
    forall b | b in Committers(log, d) ensures b in Committers(more, d) {
      var k :| 0 <= k < |log| && log[k].Commit? && log[k].digest == d && log[k].sender == b;
      assert more[k] == log[k];
    }
  }

  lemma Smaller<T>(a: set<T>, b: set<T>)
    requires a <= b
    ensures |a| <= |b|
  {
    assert b == a + (b - a);
    assert |b| == |a| + |b - a|;
  }

  lemma EntryGrows(c: Config, log: seq<Message>, m: Message,
                   delivered: set<(nat, nat)>, delivered': set<(nat, nat)>, e: Message)
    requires EntryOk(c, log, delivered, e) && delivered <= delivered'
    ensures EntryOk(c, log + [m], delivered', e)
  {
    Extended(log, m, e.digest);
    if e.Prepare? {
      var k: nat :| k < |log| && log[k].PrePrepare? && log[k].digest == e.digest && (k, e.sender) in delivered;
      assert (log + [m])[k] == log[k];
    }
    Smaller(Preparers(log, e.digest), Preparers(log + [m], e.digest));
  }

  lemma LogGrows(c: Config, log: seq<Message>, m: Message, delivered: set<(nat, nat)>, delivered': set<(nat, nat)>)
    requires LogOk(c, log, delivered) && delivered <= delivered'
    requires EntryOk(c, log + [m], delivered', m)
    requires forall j :: 0 <= j < |log| ==> Different(log[j], m)
    ensures LogOk(c, log + [m], delivered')
  {
    var more := log + [m];
    forall k | 0 <= k < |more| ensures EntryOk(c, more, delivered', more[k]) {
      if k < |log| { EntryGrows(c, log, m, delivered, delivered', log[k]); }
    }
  }

  lemma DeliveredGrows(c: Config, log: seq<Message>, delivered: set<(nat, nat)>, delivered': set<(nat, nat)>)
    requires LogOk(c, log, delivered) && delivered <= delivered'
    ensures LogOk(c, log, delivered')
  {
    forall k | 0 <= k < |log| ensures EntryOk(c, log, delivered', log[k]) {
      assert EntryOk(c, log, delivered, log[k]);
    }
  }

  lemma VoteGrows(log: seq<Message>, m: Message, delivered: set<(nat, nat)>, delivered': set<(nat, nat)>, n: Node)
    requires VotesOk(log, delivered, n) && delivered <= delivered'
    ensures VotesOk(log + [m], delivered', n) && VotesOk(log, delivered', n)
  {
    forall d, p | p in VotesFor(n.prepares, d)
      ensures VoteOk(log + [m], delivered', n.id, p, d, true) && VoteOk(log, delivered', n.id, p, d, true)
    {
      assert VoteOk(log, delivered, n.id, p, d, true);
      assert (log + [m])[p.serial] == log[p.serial];
    }
    forall d, p | p in VotesFor(n.commits, d)
      ensures VoteOk(log + [m], delivered', n.id, p, d, false) && VoteOk(log, delivered', n.id, p, d, false)
    {
      assert VoteOk(log, delivered, n.id, p, d, false);
      assert (log + [m])[p.serial] == log[p.serial];
    }
  }

  lemma JustifiedGrows(c: Config, log: seq<Message>, m: Message, i: nat, d: Digest)
    requires Justified(c, log, i, d)
    ensures Justified(c, log + [m], i, d)
  {
    Extended(log, m, d);
    Smaller(Committers(log, d) - {i}, Committers(log + [m], d) - {i});
  }

  /** A broadcast of another kind, or by another node, takes nothing away from a node. */
  lemma NodeGrows(c: Config, log: seq<Message>, m: Message, delivered: set<(nat, nat)>, delivered': set<(nat, nat)>,
                  n: Node, i: nat)
    requires NodeOk(c, log, delivered, n, i) && delivered <= delivered'
    ensures !(m.Commit? && m.sender == i) ==> NodeOk(c, log + [m], delivered', n, i)
    ensures NodeOk(c, log, delivered', n, i)
  {
    VoteGrows(log, m, delivered, delivered', n);
    forall d | d in n.applied ensures Justified(c, log + [m], i, d) { JustifiedGrows(c, log, m, i, d); }
    forall d
      ensures d in n.pool ==> Proposed(log + [m], d) && (i != c.leader ==> i in Preparers(log + [m], d))
      ensures !(m.Commit? && m.sender == i) && i in Committers(log + [m], d) ==> d in n.committed
    {
      Extended(log, m, d);
    }
  }

  lemma LeaderGrows(log: seq<Message>, m: Message, n: Node)
    requires LeaderOk(log, n) && !m.PrePrepare?
    ensures LeaderOk(log + [m], n)
  {
    forall d ensures Proposed(log + [m], d) == Proposed(log, d) { Extended(log, m, d); }
    Extended(log, m, "");
  }

  // ----- votes are votes of different nodes ------------------------------------------

  ghost function Voters(votes: set<Pointer>): set<nat> {
    set p | p in votes :: p.sender
  }

  /** Delivered at most once, a broadcast has one pointer: as many voters as votes. */
  lemma {:induction false} VotersCount(c: Config, log: seq<Message>, delivered: set<(nat, nat)>, i: nat,
                                       votes: set<Pointer>, d: Digest, prepare: bool)
    requires LogOk(c, log, delivered) && forall p :: p in votes ==> VoteOk(log, delivered, i, p, d, prepare)
    ensures |Voters(votes)| == |votes|
    decreases votes
  {
    if votes != {} {
      var p :| p in votes;
      var rest := votes - {p};
      VotersCount(c, log, delivered, i, rest, d, prepare);
      assert p.sender !in Voters(rest) by {
        if p.sender in Voters(rest) {
          var q :| q in rest && q.sender == p.sender;
          SamePointer(c, log, delivered, i, p, q, d, prepare);
        }
      }
      assert Voters(votes) == Voters(rest) + {p.sender};
    }
  }

  lemma SamePointer(c: Config, log: seq<Message>, delivered: set<(nat, nat)>, i: nat, p: Pointer, q: Pointer,
                    d: Digest, prepare: bool)
    requires LogOk(c, log, delivered) && p.sender == q.sender
    requires VoteOk(log, delivered, i, p, d, prepare) && VoteOk(log, delivered, i, q, d, prepare)
    ensures p == q
  {
    SameEntry(c, log, delivered, p.serial, q.serial);
  }

  lemma SameEntry(c: Config, log: seq<Message>, delivered: set<(nat, nat)>, j: nat, k: nat)
    requires LogOk(c, log, delivered) && j < |log| && k < |log| && !Different(log[j], log[k])
    ensures j == k
  {
    assert !Different(log[k], log[j]);
  }

  /** Enough votes are enough other nodes. */
  lemma VotesAreNodes(c: Config, log: seq<Message>, delivered: set<(nat, nat)>, i: nat, votes: set<Pointer>,
                      d: Digest, prepare: bool)
    requires LogOk(c, log, delivered) && forall p :: p in votes ==> VoteOk(log, delivered, i, p, d, prepare)
    ensures |votes| <= |(if prepare then Preparers(log, d) else Committers(log, d)) - {i}|
  {
    VotersCount(c, log, delivered, i, votes, d, prepare);
    var all := (if prepare then Preparers(log, d) else Committers(log, d)) - {i};
    forall b | b in Voters(votes) ensures b in all {
      var p :| p in votes && p.sender == b;
      assert VoteOk(log, delivered, i, p, d, prepare);
    }
    Smaller(Voters(votes), all);
  }

  // ----- one handler at a time ---------------------------------------------------------

  /** A request may enter the pool once it is proposed and, at a backup, prepared. */
  lemma StoreKeeps(c: Config, log: seq<Message>, delivered: set<(nat, nat)>, n: Node, i: nat, d: Digest, n': Node)
    requires NodeOk(c, log, delivered, n, i) && Proposed(log, d) && (i != c.leader ==> i in Preparers(log, d))
    requires exists h, st, l :: n' == n.(pool := n.pool + {d}, heights := h, stage := st, locked := l)
    ensures NodeOk(c, log, delivered, n', i)
  {
    assert VotesOk(log, delivered, n');
  }

  lemma LeaderProposes(log: seq<Message>, n: Node, r: Request)
    requires LeaderOk(log, n) && !n.locked && !Proposed(log, r.digest)
    requires forall d :: d in n.applied ==> Proposed(log, d)
    ensures LeaderOk(log + ProposeStep(n, r).sent, ProposeStep(n, r).node)
  {
    var m := PrePrepare(r, r.digest, n.seqId);
    forall d ensures Proposed(log + [m], d) <==> Proposed(log, d) || d == r.digest { Extended(log, m, d); }
    Extended(log, m, "");
    assert r.digest !in n.replied;
  }

  lemma ProposalLog(c: Config, log: seq<Message>, delivered: set<(nat, nat)>, m: Message)
    requires LogOk(c, log, delivered) && m.PrePrepare? && m.request.digest == m.digest && !Proposed(log, m.digest)
    ensures LogOk(c, log + [m], delivered) && Proposed(log + [m], m.digest)
  {
    assert EntryOk(c, log + [m], delivered, m);
    LogGrows(c, log, m, delivered, delivered);
    Extended(log, m, m.digest);
  }

  lemma ProposalKeeps(c: Config, s: System, r: Request)
    requires Inv(c, s) && Enabled(c, s, Proposal(r))
    ensures Inv(c, Step(c, s, Proposal(r)))
  {
    var n := s.nodes[c.leader];
    var o := ProposeStep(n, r);
    var m := PrePrepare(r, r.digest, n.seqId);
    ProposalLog(c, s.log, s.delivered, m);
    forall i | 0 <= i < |s.nodes| ensures NodeOk(c, s.log + [m], s.delivered, s.nodes[i], i) {
      NodeGrows(c, s.log, m, s.delivered, s.delivered, s.nodes[i], i);
    }
    StoreKeeps(c, s.log + [m], s.delivered, n, c.leader, r.digest, o.node);
    LeaderProposes(s.log, n, r);
  }

  /** The leader's books after a delivery to any node. */
  lemma LeaderAfter(c: Config, s: System, k: nat, i: nat, o: Outcome)
    requires Inv(c, s) && Enabled(c, s, Delivery(k, i)) && o == Handle(s.nodes[i], s.log[k], k)
    requires |o.sent| <= 1 && forall m :: m in o.sent ==> !m.PrePrepare?
    ensures LeaderOk(s.log + o.sent, s.nodes[i := o.node][c.leader])
  {
    if i == c.leader {
      LeaderHandlerKeeps(c, s.log, s.delivered, s.nodes[i], k);
    } else {
      LeaderUnmoved(s.log, o.sent, s.nodes[c.leader]);
    }
  }

  lemma LeaderUnmoved(log: seq<Message>, sent: seq<Message>, n: Node)
    requires LeaderOk(log, n) && |sent| <= 1 && forall m :: m in sent ==> !m.PrePrepare?
    ensures LeaderOk(log + sent, n)
  {
    if sent == [] {
      assert log + sent == log;
    } else {
      assert sent == [sent[0]];
      LeaderGrows(log, sent[0], n);
    }
  }

  lemma DeliveryKeeps(c: Config, s: System, k: nat, i: nat)
    requires Inv(c, s) && Enabled(c, s, Delivery(k, i))
    ensures Inv(c, Step(c, s, Delivery(k, i)))
  {
    var o := Handle(s.nodes[i], s.log[k], k);
    var s' := Step(c, s, Delivery(k, i));
    HandlerKeeps(c, s.log, s.delivered, s.nodes[i], i, k);
    LeaderAfter(c, s, k, i, o);
    forall j | 0 <= j < |s'.nodes| ensures NodeOk(c, s'.log, s'.delivered, s'.nodes[j], j) {
      if j != i { OthersKeep(c, s.log, s.delivered, s'.delivered, o.sent, s.nodes[j], j); }
    }
  }

  lemma OthersKeep(c: Config, log: seq<Message>, delivered: set<(nat, nat)>, delivered': set<(nat, nat)>,
                   sent: seq<Message>, n: Node, j: nat)
    requires NodeOk(c, log, delivered, n, j) && delivered <= delivered'
    requires |sent| <= 1 && forall m :: m in sent ==> !(m.Commit? && m.sender == j)
    ensures NodeOk(c, log + sent, delivered', n, j)
  {
    if sent == [] {
      assert log + sent == log;
      NodeGrows(c, log, Prepare("", 0, j), delivered, delivered', n, j);
    } else {
      assert sent == [sent[0]];
      NodeGrows(c, log, sent[0], delivered, delivered', n, j);
    }
  }

  /** A receiver keeps its own invariant and the log's. */
  lemma HandlerKeeps(c: Config, log: seq<Message>, delivered: set<(nat, nat)>, n: Node, i: nat, k: nat)
    requires LogOk(c, log, delivered) && NodeOk(c, log, delivered, n, i)
    requires k < |log| && i != Sender(c, log[k]) && (k, i) !in delivered
    ensures var o := Handle(n, log[k], k);
            LogOk(c, log + o.sent, delivered + {(k, i)}) && NodeOk(c, log + o.sent, delivered + {(k, i)}, o.node, i) &&
            |o.sent| <= 1 && forall m :: m in o.sent ==> !m.PrePrepare? && m.sender == i
  {
    match log[k]
    case PrePrepare(_, _, _) => PrePrepareKeeps(c, log, delivered, n, i, k);
    case Prepare(_, _, _) => PrepareKeeps(c, log, delivered, n, i, k);
    case Commit(_, _, _) => CommitKeeps(c, log, delivered, n, i, k);
  }

  lemma PrePrepareKeeps(c: Config, log: seq<Message>, delivered: set<(nat, nat)>, n: Node, i: nat, k: nat)
    requires LogOk(c, log, delivered) && NodeOk(c, log, delivered, n, i)
    requires k < |log| && log[k].PrePrepare? && i != c.leader && (k, i) !in delivered
    ensures var o := PrePrepareStep(n, log[k]);
            LogOk(c, log + o.sent, delivered + {(k, i)}) && NodeOk(c, log + o.sent, delivered + {(k, i)}, o.node, i)
  {
    var d, delivered' := log[k].digest, delivered + {(k, i)};
    var o := PrePrepareStep(n, log[k]);
    var m := Prepare(d, log[k].seqId, i);
    assert EntryOk(c, log, delivered, log[k]);
    Extended(log, m, d);
    assert (log + [m])[k] == log[k];
    assert Answers(log + [m], delivered', d, i);
    forall j | 0 <= j < |log| ensures Different(log[j], m) {
      FirstPrepare(c, log, delivered, i, k, j);
    }
    LogGrows(c, log, m, delivered, delivered');
    NodeGrows(c, log, m, delivered, delivered', n, i);
    StoreKeeps(c, log + [m], delivered', n, i, d, o.node);
  }

  /** A node that has not received the proposal has not prepared it. */
  lemma FirstPrepare(c: Config, log: seq<Message>, delivered: set<(nat, nat)>, i: nat, k: nat, j: nat)
    requires LogOk(c, log, delivered) && k < |log| && j < |log|
    requires log[k].PrePrepare? && (k, i) !in delivered
    ensures log[j].Prepare? && log[j].digest == log[k].digest ==> log[j].sender != i
  {
    if log[j].Prepare? && log[j].digest == log[k].digest {
      assert EntryOk(c, log, delivered, log[j]);
      var p: nat :| p < |log| && log[p].PrePrepare? && log[p].digest == log[k].digest &&
        (p, log[j].sender) in delivered;
      SameEntry(c, log, delivered, p, k);
    }
  }

  lemma PrepareKeeps(c: Config, log: seq<Message>, delivered: set<(nat, nat)>, n: Node, i: nat, k: nat)
    requires LogOk(c, log, delivered) && NodeOk(c, log, delivered, n, i)
    requires k < |log| && log[k].Prepare? && i != log[k].sender && (k, i) !in delivered
    ensures var o := PrepareStep(n, log[k], Pointer(k, log[k].sender));
            LogOk(c, log + o.sent, delivered + {(k, i)}) && NodeOk(c, log + o.sent, delivered + {(k, i)}, o.node, i)
  {
    var d, delivered', p := log[k].digest, delivered + {(k, i)}, Pointer(k, log[k].sender);
    var o := PrepareStep(n, log[k], p);
    DeliveredGrows(c, log, delivered, delivered');
    var m := Commit(d, log[k].seqId, i);
    NodeGrows(c, log, m, delivered, delivered', n, i);
    if o.sent == [] {
      assert log + o.sent == log;
      PrepareVoteKeeps(c, log, delivered', n, i, k);
    } else {
      var voted := n.(prepares := WithVote(n.prepares, d, p));
      PrepareVoteKeeps(c, log, delivered', n, i, k);
      CommitBacked(c, log, delivered', voted, i, d);
      assert o.sent == [m];
      BroadcastCommit(c, log, delivered', voted, i, m);
    }
  }

  /** Recording a vote for a delivered Prepare. */
  lemma PrepareVoteKeeps(c: Config, log: seq<Message>, delivered: set<(nat, nat)>, n: Node, i: nat, k: nat)
    requires NodeOk(c, log, delivered, n, i) && (k, i) in delivered
    requires k < |log| && log[k].Prepare? && i != log[k].sender
    ensures NodeOk(c, log, delivered, n.(prepares := WithVote(n.prepares, log[k].digest, Pointer(k, log[k].sender))), i)
  {
  }

  lemma CommitVoteKeeps(c: Config, log: seq<Message>, delivered: set<(nat, nat)>, n: Node, i: nat, k: nat)
    requires NodeOk(c, log, delivered, n, i) && (k, i) in delivered
    requires k < |log| && log[k].Commit? && i != log[k].sender
    ensures NodeOk(c, log, delivered, n.(commits := WithVote(n.commits, log[k].digest, Pointer(k, log[k].sender))), i)
  {
  }

  /** A Prepare quorum, a backup's own Prepare included, is 2f backups. */
  lemma CommitBacked(c: Config, log: seq<Message>, delivered: set<(nat, nat)>, n: Node, i: nat, d: Digest)
    requires LogOk(c, log, delivered) && NodeOk(c, log, delivered, n, i) && d in n.pool
    requires |VotesFor(n.prepares, d)| >= PrepareQuorum(n)
    ensures Proposed(log, d) && |Preparers(log, d)| >= 2 * Faults(c)
  {
    VotesAreNodes(c, log, delivered, i, VotesFor(n.prepares, d), d, true);
    if i == c.leader {
      Smaller(Preparers(log, d) - {i}, Preparers(log, d));
    } else {
      assert |Preparers(log, d) - {i}| == |Preparers(log, d)| - 1;
    }
  }

  lemma BroadcastCommit(c: Config, log: seq<Message>, delivered: set<(nat, nat)>, n: Node, i: nat, m: Message)
    requires LogOk(c, log, delivered) && NodeOk(c, log, delivered, n, i)
    requires m.Commit? && m.sender == i && m.digest !in n.committed
    requires Proposed(log, m.digest) && |Preparers(log, m.digest)| >= 2 * Faults(c)
    ensures LogOk(c, log + [m], delivered)
    ensures NodeOk(c, log + [m], delivered, n.(committed := n.committed + {m.digest}, stage := n.stage + 1), i)
  {
    Extended(log, m, m.digest);
    forall j | 0 <= j < |log| ensures Different(log[j], m) {
      assert log[j].Commit? && log[j].digest == m.digest ==> log[j].sender in Committers(log, m.digest);
    }
    LogGrows(c, log, m, delivered, delivered);
    OwnCommit(c, log, delivered, n, i, m);
  }

  lemma OwnCommit(c: Config, log: seq<Message>, delivered: set<(nat, nat)>, n: Node, i: nat, m: Message)
    requires NodeOk(c, log, delivered, n, i) && m.Commit? && m.sender == i
    ensures NodeOk(c, log + [m], delivered, n.(committed := n.committed + {m.digest}, stage := n.stage + 1), i)
  {
    var n' := n.(committed := n.committed + {m.digest}, stage := n.stage + 1);
    VoteGrows(log, m, delivered, delivered, n);
    assert VotesOk(log + [m], delivered, n');
    forall d | d in n.applied ensures Justified(c, log + [m], i, d) { JustifiedGrows(c, log, m, i, d); }
    forall d
      ensures d in n.pool ==> Proposed(log + [m], d) && (i != c.leader ==> i in Preparers(log + [m], d))
      ensures i in Committers(log + [m], d) ==> d in n'.committed
    {
      Extended(log, m, d);
    }
  }

  lemma CommitKeeps(c: Config, log: seq<Message>, delivered: set<(nat, nat)>, n: Node, i: nat, k: nat)
    requires LogOk(c, log, delivered) && NodeOk(c, log, delivered, n, i)
    requires k < |log| && log[k].Commit? && i != log[k].sender && (k, i) !in delivered
    ensures var o := CommitStep(n, log[k], Pointer(k, log[k].sender));
            LogOk(c, log + o.sent, delivered + {(k, i)}) && NodeOk(c, log + o.sent, delivered + {(k, i)}, o.node, i)
  {
    var d, delivered', p := log[k].digest, delivered + {(k, i)}, Pointer(k, log[k].sender);
    var voted := n.(commits := WithVote(n.commits, d, p));
    assert log + [] == log;
    DeliveredGrows(c, log, delivered, delivered');
    NodeGrows(c, log, log[k], delivered, delivered', n, i);
    CommitVoteKeeps(c, log, delivered', n, i, k);
    if |VotesFor(voted.commits, d)| >= 2 * n.f && d !in n.replied {
      assert EntryOk(c, log, delivered, log[k]);
      VotesAreNodes(c, log, delivered', i, VotesFor(voted.commits, d), d, false);
      FinishKeeps(c, log, delivered', voted, i, d);
    }
  }

  lemma FinishKeeps(c: Config, log: seq<Message>, delivered: set<(nat, nat)>, n: Node, i: nat, d: Digest)
    requires NodeOk(c, log, delivered, n, i) && Justified(c, log, i, d) && d !in n.replied
    ensures NodeOk(c, log, delivered, Finished(n, d), i)
  {
    assert d !in n.applied;
    assert VotesOk(log, delivered, Finished(n, d));
  }

  // ----- the leader -----------------------------------------------------------------

  /** Votes, stages and broadcasts of Commit are not the leader's books. */
  lemma LeaderFrame(log: seq<Message>, n: Node, n': Node)
    requires LeaderOk(log, n)
    requires n'.pool == n.pool && n'.replied == n.replied && n'.applied == n.applied
    requires n'.locked == n.locked && n'.unlocks == n.unlocks
    ensures LeaderOk(log, n')
  {
  }

  lemma LeaderHandlerKeeps(c: Config, log: seq<Message>, delivered: set<(nat, nat)>, n: Node, k: nat)
    requires LogOk(c, log, delivered) && NodeOk(c, log, delivered, n, c.leader) && LeaderOk(log, n)
    requires k < |log| && c.leader != Sender(c, log[k])
    ensures var o := Handle(n, log[k], k); LeaderOk(log + o.sent, o.node)
  {
    if log[k].Prepare? {
      LeaderPrepares(c, log, n, k);
    } else {
      assert EntryOk(c, log, delivered, log[k]);
      LeaderCommits(c, log, n, k);
    }
  }

  lemma LeaderPrepares(c: Config, log: seq<Message>, n: Node, k: nat)
    requires LeaderOk(log, n) && k < |log| && log[k].Prepare?
    ensures var o := PrepareStep(n, log[k], Pointer(k, log[k].sender)); LeaderOk(log + o.sent, o.node)
  {
    var o := PrepareStep(n, log[k], Pointer(k, log[k].sender));
    LeaderFrame(log, n, o.node);
    if o.sent == [] {
      assert log + o.sent == log;
    } else {
      assert o.sent == [o.sent[0]];
      LeaderGrows(log, o.sent[0], o.node);
    }
  }

  lemma LeaderCommits(c: Config, log: seq<Message>, n: Node, k: nat)
    requires LeaderOk(log, n) && n.id == n.view && k < |log| && log[k].Commit? && Proposed(log, log[k].digest)
    ensures var o := CommitStep(n, log[k], Pointer(k, log[k].sender)); LeaderOk(log + o.sent, o.node)
  {
    var voted := n.(commits := WithVote(n.commits, log[k].digest, Pointer(k, log[k].sender)));
    assert log + [] == log;
    LeaderFrame(log, n, voted);
    if log[k].digest !in n.replied { LeaderFinishes(log, voted, log[k].digest); }
  }

  /** Finishing its proposal, the leader releases the lock it holds for it. */
  lemma LeaderFinishes(log: seq<Message>, n: Node, d: Digest)
    requires LeaderOk(log, n) && Proposed(log, d) && d !in n.replied && n.id == n.view
    ensures n.locked && LeaderOk(log, Finished(n, d))
  {
  }

  // ----- every run --------------------------------------------------------------------

  lemma InitOk(c: Config, s: System)
    requires Init(c, s)
    ensures Inv(c, s)
  {
  }

  lemma {:induction false} RunKeeps(c: Config, states: seq<System>, events: seq<Event>, t: nat)
    requires Run(c, states, events) && t < |states|
    ensures Inv(c, states[t])
  {
    if t == 0 {
      InitOk(c, states[0]);
    } else {
      RunKeeps(c, states, events, t - 1);
      var s, e := states[t - 1], events[t - 1];
      match e
      case Proposal(r) => ProposalKeeps(c, s, r);
      case Delivery(k, i) => DeliveryKeeps(c, s, k, i);
    }
  }

  /**
   * Safety at every moment of every run: what a node has applied, it applied once;
   * the leader proposed it, 2f other nodes had broadcast Commit for it, and every
   * Commit was backed by the Prepares of 2f different backups.
   */
  lemma AppliedSafely(c: Config, states: seq<System>, events: seq<Event>, t: nat, i: nat, d: Digest)
    requires Run(c, states, events) && t < |states| && i < |states[t].nodes| && d in states[t].nodes[i].applied
    ensures multiset(states[t].nodes[i].applied)[d] == 1
    ensures Proposed(states[t].log, d)
    ensures |Committers(states[t].log, d) - {i}| >= 2 * Faults(c)
    ensures |Preparers(states[t].log, d) - {c.leader}| >= 2 * Faults(c)
  {
    RunKeeps(c, states, events, t);
    var s := states[t];
    assert NodeOk(c, s.log, s.delivered, s.nodes[i], i);
    OnceIn(s.nodes[i].applied, d);
    PreparersAreBackups(c, s.log, s.delivered, d);
    if 0 < Faults(c) {
      var b :| b in Committers(s.log, d);
      CommitBackedInLog(c, s.log, s.delivered, d, b);
    }
  }

  /** At every moment of every run, every Commit is backed by the Prepares of 2f different backups. */
  lemma CommitsBacked(c: Config, states: seq<System>, events: seq<Event>, t: nat, b: nat, d: Digest)
    requires Run(c, states, events) && t < |states| && b in Committers(states[t].log, d)
    ensures |Preparers(states[t].log, d) - {c.leader}| >= 2 * Faults(c)
  {
    RunKeeps(c, states, events, t);
    var s := states[t];
    PreparersAreBackups(c, s.log, s.delivered, d);
    CommitBackedInLog(c, s.log, s.delivered, d, b);
  }

  /**
   * At every moment of every run the leader has at most one proposal it has not
   * applied; it applies them in the order it proposed them, holds the sequence lock
   * exactly while it has an unapplied one, and has released it once for every
   * proposal it applied.
   */
  lemma OneProposalAtATime(c: Config, states: seq<System>, events: seq<Event>, t: nat)
    requires Run(c, states, events) && t < |states| && c.leader < |states[t].nodes|
    ensures var s, n := states[t], states[t].nodes[c.leader];
      (forall d, d' :: Proposed(s.log, d) && Proposed(s.log, d') && d !in n.applied && d' !in n.applied ==> d == d') &&
      (n.locked <==> exists d :: Proposed(s.log, d) && d !in n.applied) &&
      n.applied <= Proposals(s.log) &&
      n.unlocks == |n.applied| && |Proposals(s.log)| == n.unlocks + if n.locked then 1 else 0
  {
    RunKeeps(c, states, events, t);
    var n := states[t].nodes[c.leader];
    if n.locked {
      var d :| d in n.pool;
      assert Proposed(states[t].log, d) && d !in n.applied;
    }
  }

  lemma {:induction false} OnceIn(s: seq<Digest>, d: Digest)
    requires forall j, k :: 0 <= j < k < |s| ==> s[j] != s[k]
    ensures multiset(s)[d] == if d in s then 1 else 0
  {
    if s != [] {
      var front, last := s[..|s| - 1], s[|s| - 1];
      assert s == front + [last];
      OnceIn(front, d);
    }
  }

  lemma PreparersAreBackups(c: Config, log: seq<Message>, delivered: set<(nat, nat)>, d: Digest)
    requires LogOk(c, log, delivered)
    ensures Preparers(log, d) - {c.leader} == Preparers(log, d)
  {
    forall b | b in Preparers(log, d) ensures b != c.leader {
      var k :| 0 <= k < |log| && log[k].Prepare? && log[k].digest == d && log[k].sender == b;
      assert EntryOk(c, log, delivered, log[k]);
    }
  }

  lemma CommitBackedInLog(c: Config, log: seq<Message>, delivered: set<(nat, nat)>, d: Digest, b: nat)
    requires LogOk(c, log, delivered) && b in Committers(log, d)
    ensures |Preparers(log, d)| >= 2 * Faults(c)
  {
    var k :| 0 <= k < |log| && log[k].Commit? && log[k].digest == d && log[k].sender == b;
    assert EntryOk(c, log, delivered, log[k]);
  }

  /**
   * Why a broadcast must not arrive twice: votes are counted per received copy, so
   * with f = 1 a leader that gets one backup's Prepare twice broadcasts Commit.
   */
  lemma DuplicatesCountTwice(n: Node, d: Digest, j: nat)
    requires n.id == n.view && n.f == 1 && d in n.pool && d !in n.committed && n.prepares == map[] && n.stage == 2
    ensures var m := Prepare(d, n.seqId, j);
      var once := Handle(n, m, 0).node;
      Handle(n, m, 0).sent == [] && Handle(once, m, 1).sent == [Commit(d, n.seqId, n.id)]
  {
    var votes := WithVote(WithVote(n.prepares, d, Pointer(0, j)), d, Pointer(1, j));
    assert VotesFor(WithVote(n.prepares, d, Pointer(0, j)), d) == {Pointer(0, j)};
    assert VotesFor(votes, d) == {Pointer(0, j), Pointer(1, j)};
  }

  // ----- why proposals need new digests ---------------------------------------------------

  ghost predicate PoolKnown(log: seq<Message>, n: Node) {
    forall d :: d in n.pool ==> Proposed(log, d)
  }

  ghost predicate EntryKnown(log: seq<Message>, m: Message) {
    (m.Commit? ==> Proposed(log, m.digest)) && (m.PrePrepare? ==> m.request.digest == m.digest)
  }

  ghost predicate Replied(log: seq<Message>, n: Node) {
    n.locked && n.id == n.view && forall d :: Proposed(log, d) ==> d in n.replied
  }

  /** The leader holds the lock and has already replied to everything proposed. */
  ghost predicate Stuck(c: Config, s: System) {
    c.leader < |s.nodes| && Replied(s.log, s.nodes[c.leader]) &&
    (forall i :: 0 <= i < |s.nodes| ==> PoolKnown(s.log, s.nodes[i])) &&
    (forall k :: 0 <= k < |s.log| ==> EntryKnown(s.log, s.log[k]))
  }

  /** Broadcasts other than proposals leave what is proposed unchanged. */
  lemma SameProposed(log: seq<Message>, sent: seq<Message>)
    requires |sent| <= 1 && forall m :: m in sent ==> !m.PrePrepare?
    ensures forall d :: Proposed(log + sent, d) <==> Proposed(log, d)
  {
    forall d ensures Proposed(log + sent, d) <==> Proposed(log, d) {
      if sent == [] {
        assert log + sent == log;
      } else {
        assert sent == [sent[0]];
        Extended(log, sent[0], d);
      }
    }
  }

  lemma HandleKnown(c: Config, log: seq<Message>, n: Node, k: nat)
    requires k < |log| && PoolKnown(log, n) && EntryKnown(log, log[k])
    ensures var o := Handle(n, log[k], k);
      && PoolKnown(log, o.node) && |o.sent| <= 1
      && (forall m :: m in o.sent ==> !m.PrePrepare? && EntryKnown(log, m))
      && (Replied(log, n) ==> Replied(log, o.node))
  {
    assert log[k].PrePrepare? ==> Proposed(log, log[k].digest);
  }

  lemma KnownFromInv(c: Config, s: System)
    requires Inv(c, s)
    ensures forall i :: 0 <= i < |s.nodes| ==> PoolKnown(s.log, s.nodes[i])
    ensures forall k :: 0 <= k < |s.log| ==> EntryKnown(s.log, s.log[k])
  {
    forall i | 0 <= i < |s.nodes| ensures PoolKnown(s.log, s.nodes[i]) {
      assert NodeOk(c, s.log, s.delivered, s.nodes[i], i);
    }
    forall k | 0 <= k < |s.log| ensures EntryKnown(s.log, s.log[k]) {
      assert EntryOk(c, s.log, s.delivered, s.log[k]);
    }
  }

  /** Once unlocked, the leader has replied to all it proposed. */
  lemma UnlockedReplied(log: seq<Message>, n: Node, d: Digest)
    requires LeaderOk(log, n) && !n.locked && Proposed(log, d)
    ensures d in n.replied
  {
  }

  lemma ProposedAgain(log: seq<Message>, r: Request, seqId: nat, d: Digest)
    requires Proposed(log, r.digest)
    ensures Proposed(log + [PrePrepare(r, r.digest, seqId)], d) <==> Proposed(log, d)
  {
    Extended(log, PrePrepare(r, r.digest, seqId), d);
  }

  /** Proposing a digest a second time leads there. */
  lemma RepeatedProposalSticks(c: Config, s: System, r: Request)
    requires Inv(c, s) && !s.nodes[c.leader].locked && Proposed(s.log, r.digest)
    ensures var o := ProposeStep(s.nodes[c.leader], r);
      Stuck(c, System(s.nodes[c.leader := o.node], s.log + o.sent, s.delivered))
  {
    KnownFromInv(c, s);
    assert NodeOk(c, s.log, s.delivered, s.nodes[c.leader], c.leader);
    forall d | Proposed(s.log, d) ensures d in s.nodes[c.leader].replied {
      UnlockedReplied(s.log, s.nodes[c.leader], d);
    }
    RepeatedKnown(c, s, r);
  }

  lemma RepeatedKnown(c: Config, s: System, r: Request)
    requires c.leader < |s.nodes| && s.nodes[c.leader].id == s.nodes[c.leader].view && Proposed(s.log, r.digest)
    requires forall i :: 0 <= i < |s.nodes| ==> PoolKnown(s.log, s.nodes[i])
    requires forall k :: 0 <= k < |s.log| ==> EntryKnown(s.log, s.log[k])
    requires forall d :: Proposed(s.log, d) ==> d in s.nodes[c.leader].replied
    ensures var o := ProposeStep(s.nodes[c.leader], r);
      Stuck(c, System(s.nodes[c.leader := o.node], s.log + o.sent, s.delivered))
  {
    var m := PrePrepare(r, r.digest, s.nodes[c.leader].seqId);
    var log := s.log + [m];
    forall d ensures Proposed(log, d) <==> Proposed(s.log, d) {
      ProposedAgain(s.log, r, s.nodes[c.leader].seqId, d);
    }
    forall k | 0 <= k < |log| ensures EntryKnown(log, log[k]) {
      assert k < |s.log| ==> EntryKnown(s.log, s.log[k]);
    }
    forall i | 0 <= i < |s.nodes| ensures PoolKnown(log, s.nodes[i]) {
      assert PoolKnown(s.log, s.nodes[i]);
    }
  }

  /** And no event leads out of it: the lock is never released, so nothing is proposed again. */
  lemma StuckStays(c: Config, s: System, e: Event)
    requires Stuck(c, s) && Enabled(c, s, e)
    ensures e.Delivery? && Stuck(c, Step(c, s, e))
  {
    var o := Handle(s.nodes[e.to], s.log[e.serial], e.serial);
    var s' := Step(c, s, e);
    HandleKnown(c, s.log, s.nodes[e.to], e.serial);
    SameProposed(s.log, o.sent);
    forall i | 0 <= i < |s'.nodes| ensures PoolKnown(s'.log, s'.nodes[i]) {
      assert PoolKnown(s.log, if i == e.to then o.node else s.nodes[i]);
    }
    forall k | 0 <= k < |s'.log| ensures EntryKnown(s'.log, s'.log[k]) {
      assert k < |s.log| ==> EntryKnown(s.log, s.log[k]);
      assert k >= |s.log| ==> s'.log[k] in o.sent;
    }
  }
}
