/**
 * In which order a node applies what the leader proposes.  handleCommit does not compare
 * a Commit's sequence id with the node's own, and a node may be ahead of its stage.
 */
module PbftOrder {
  import opened PbftNodes
  import opened PbftSystem

  // ----- sequence ids -------------------------------------------------------------

  /** The message carries the sequence id of its digest's proposal, which counts from the start. */
  ghost predicate Numbered(c: Config, log: seq<Message>, m: Message) {
    exists p :: 0 <= p < |Proposals(log)| && Proposals(log)[p] == m.digest && m.seqId == c.height + 1 + p
  }

  ghost predicate NumbersOk(c: Config, s: System) {
    (forall k :: 0 <= k < |s.log| ==> Numbered(c, s.log, s.log[k])) &&
    (forall i :: 0 <= i < |s.nodes| ==> s.nodes[i].seqId == c.height + 1 + |s.nodes[i].applied|)
  }

  lemma ProposalsGrow(log: seq<Message>, sent: seq<Message>)
    requires |sent| <= 1
    ensures Proposals(log) <= Proposals(log + sent)
    ensures (forall m :: m in sent ==> !m.PrePrepare?) ==> Proposals(log + sent) == Proposals(log)
  {
    if sent == [] {
      assert log + sent == log;
    } else {
      assert sent == [sent[0]];
      Extended(log, sent[0], "");
    }
  }

  lemma NumberedGrows(c: Config, log: seq<Message>, sent: seq<Message>, m: Message)
    requires |sent| <= 1 && Numbered(c, log, m)
    ensures Numbered(c, log + sent, m)
  {
    ProposalsGrow(log, sent);
    var p :| 0 <= p < |Proposals(log)| && Proposals(log)[p] == m.digest && m.seqId == c.height + 1 + p;
    assert Proposals(log + sent)[p] == m.digest;
  }

  /** What a handler sends carries the digest and the id of what it answers. */
  lemma SentNumbered(c: Config, log: seq<Message>, n: Node, k: nat)
    requires k < |log| && Numbered(c, log, log[k])
    ensures var o := Handle(n, log[k], k);
      |o.sent| <= 1 && forall m :: m in o.sent ==> !m.PrePrepare? && Numbered(c, log, m)
  {
    var p :| 0 <= p < |Proposals(log)| && Proposals(log)[p] == log[k].digest && log[k].seqId == c.height + 1 + p;
  }

  lemma HandleCounts(c: Config, n: Node, m: Message, k: nat)
    requires n.seqId == c.height + 1 + |n.applied|
    ensures var o := Handle(n, m, k); o.node.seqId == c.height + 1 + |o.node.applied|
  {
  }

  lemma DeliveryNumbers(c: Config, s: System, k: nat, i: nat)
    requires NumbersOk(c, s) && Enabled(c, s, Delivery(k, i))
    ensures NumbersOk(c, Step(c, s, Delivery(k, i)))
  {
    var o := Handle(s.nodes[i], s.log[k], k);
    var s' := Step(c, s, Delivery(k, i));
    SentNumbered(c, s.log, s.nodes[i], k);
    HandleCounts(c, s.nodes[i], s.log[k], k);
    forall j | 0 <= j < |s'.log| ensures Numbered(c, s'.log, s'.log[j]) {
      if j >= |s.log| { assert s'.log[j] in o.sent; }
      NumberedGrows(c, s.log, o.sent, s'.log[j]);
    }
  }

  lemma ProposalNumbers(c: Config, s: System, r: Request)
    requires Inv(c, s) && NumbersOk(c, s) && Enabled(c, s, Proposal(r))
    ensures NumbersOk(c, Step(c, s, Proposal(r)))
  {
    var n := s.nodes[c.leader];
    var m := PrePrepare(r, r.digest, n.seqId);
    var s' := Step(c, s, Proposal(r));
    Extended(s.log, m, r.digest);
    assert Proposals(s'.log)[|Proposals(s.log)|] == r.digest;
    assert Numbered(c, s'.log, m);
    forall j | 0 <= j < |s'.log| ensures Numbered(c, s'.log, s'.log[j]) {
      if j < |s.log| { NumberedGrows(c, s.log, [m], s.log[j]); }
    }
  }

  lemma {:induction false} RunNumbers(c: Config, states: seq<System>, events: seq<Event>, t: nat)
    requires Run(c, states, events) && t < |states|
    ensures NumbersOk(c, states[t])
  {
    if t > 0 {
      RunNumbers(c, states, events, t - 1);
      match events[t - 1]
      case Proposal(r) =>
        RunKeeps(c, states, events, t - 1);
        ProposalNumbers(c, states[t - 1], r);
      case Delivery(k, i) => DeliveryNumbers(c, states[t - 1], k, i);
    }
  }

  // ----- in order exactly when in turn -------------------------------------------------

  /** A node has applied a prefix of what was proposed. */
  ghost predicate InOrder(s: System, i: nat) {
    i < |s.nodes| && s.nodes[i].applied <= Proposals(s.log)
  }

  ghost predicate Applies(c: Config, s: System, e: Event, i: nat) {
    Enabled(c, s, e) && e.Delivery? && e.to == i &&
    Step(c, s, e).nodes[i].applied != s.nodes[i].applied
  }

  /** The comparison that handleCommit does not make. */
  ghost predicate InTurn(s: System, e: Event) {
    e.Delivery? && e.serial < |s.log| && e.to < |s.nodes| && s.log[e.serial].seqId == s.nodes[e.to].seqId
  }

  /** Applying is one digest more, that of the Commit delivered. */
  lemma AppliesOne(c: Config, s: System, e: Event, i: nat)
    requires Enabled(c, s, e) && i < |s.nodes|
    ensures Applies(c, s, e, i) ==>
      Step(c, s, e).nodes[i].applied == s.nodes[i].applied + [s.log[e.serial].digest] && s.log[e.serial].Commit?
    ensures !Applies(c, s, e, i) ==> Step(c, s, e).nodes[i].applied == s.nodes[i].applied
  {
  }

  lemma StepProposals(c: Config, s: System, e: Event)
    requires Enabled(c, s, e)
    ensures Proposals(s.log) <= Proposals(Step(c, s, e).log)
    ensures e.Delivery? ==> |Step(c, s, e).log| <= |s.log| + 1
    ensures e.Delivery? && NumbersOk(c, s) ==> Proposals(Step(c, s, e).log) == Proposals(s.log)
  {
    match e
    case Proposal(r) =>
      ProposalsGrow(s.log, ProposeStep(s.nodes[c.leader], r).sent);
    case Delivery(k, i) =>
      ProposalsGrow(s.log, Handle(s.nodes[i], s.log[k], k).sent);
      if NumbersOk(c, s) { SentNumbered(c, s.log, s.nodes[i], k); }
  }

  lemma DistinctProposals(c: Config, log: seq<Message>, delivered: set<(nat, nat)>)
    requires LogOk(c, log, delivered)
    ensures forall p, q :: 0 <= p < q < |Proposals(log)| ==> Proposals(log)[p] != Proposals(log)[q]
  {
    ProposalsAreDistinct(log);
  }

  ghost predicate ProposedOnce(log: seq<Message>) {
    forall j, k :: 0 <= j < k < |log| && log[j].PrePrepare? && log[k].PrePrepare? ==> log[j].digest != log[k].digest
  }

  lemma {:induction false} ProposalsAreDistinct(log: seq<Message>)
    requires ProposedOnce(log)
    ensures forall p, q :: 0 <= p < q < |Proposals(log)| ==> Proposals(log)[p] != Proposals(log)[q]
  {
    if log != [] {
      var front, last := log[..|log| - 1], log[|log| - 1];
      ProposalsAreDistinct(front);
      if last.PrePrepare? {
        forall p | 0 <= p < |Proposals(front)| ensures Proposals(front)[p] != last.digest {
          ProposalIsEntry(front, p);
        }
      }
    }
  }

  lemma {:induction false} ProposalIsEntry(log: seq<Message>, p: nat)
    requires p < |Proposals(log)|
    ensures exists k :: 0 <= k < |log| && log[k].PrePrepare? && log[k].digest == Proposals(log)[p]
  {
    var front := log[..|log| - 1];
    if p < |Proposals(front)| {
      ProposalIsEntry(front, p);
      var k :| 0 <= k < |front| && front[k].PrePrepare? && front[k].digest == Proposals(front)[p];
      assert log[k] == front[k];
    } else {
      assert log[|log| - 1].PrePrepare?;
    }
  }

  /** One step from an ordered node: ordered again exactly if what it applies is in turn. */
  lemma StepOrderIff(c: Config, s: System, e: Event, i: nat)
    requires Inv(c, s) && NumbersOk(c, s) && Enabled(c, s, e) && InOrder(s, i)
    ensures InOrder(Step(c, s, e), i) <==> (Applies(c, s, e, i) ==> InTurn(s, e))
  {
    AppliesOne(c, s, e, i);
    StepProposals(c, s, e);
    if Applies(c, s, e, i) {
      NextIffTurn(c, s.log, s.delivered, s.nodes[i].applied, s.log[e.serial], s.nodes[i].seqId);
    }
  }

  lemma NextIffTurn(c: Config, log: seq<Message>, delivered: set<(nat, nat)>, applied: seq<Digest>, m: Message,
                    seqId: nat)
    requires LogOk(c, log, delivered) && Numbered(c, log, m) && applied <= Proposals(log)
    requires seqId == c.height + 1 + |applied|
    ensures applied + [m.digest] <= Proposals(log) <==> m.seqId == seqId
  {
    DistinctProposals(c, log, delivered);
    var p :| 0 <= p < |Proposals(log)| && Proposals(log)[p] == m.digest && m.seqId == c.height + 1 + p;
    if applied + [m.digest] <= Proposals(log) {
      assert (applied + [m.digest])[|applied|] == Proposals(log)[|applied|];
    }
  }

  /**
   * MAIN: over every run, a node has applied a prefix of the proposals at every moment up to
   * T if and only if every Commit that made it apply carried the node's own sequence id.
   */
  lemma OrderIffInTurn(c: Config, states: seq<System>, events: seq<Event>, i: nat, T: nat)
    requires Run(c, states, events) && T < |states| && i < c.nodeNums
    ensures (forall t :: 0 <= t <= T ==> InOrder(states[t], i)) <==>
            (forall t :: 0 <= t < T && Applies(c, states[t], events[t], i) ==> InTurn(states[t], events[t]))
  {
    if forall t :: 0 <= t < T && Applies(c, states[t], events[t], i) ==> InTurn(states[t], events[t]) {
      forall t | 0 <= t <= T ensures InOrder(states[t], i) { InTurnOrdered(c, states, events, i, T, t); }
    }
    if forall t :: 0 <= t <= T ==> InOrder(states[t], i) {
      forall t | 0 <= t < T && Applies(c, states[t], events[t], i) ensures InTurn(states[t], events[t]) {
        RunKeeps(c, states, events, t);
        RunNumbers(c, states, events, t);
        assert InOrder(states[t], i) && InOrder(states[t + 1], i);
        StepOrderIff(c, states[t], events[t], i);
      }
    }
  }

  lemma {:induction false} InTurnOrdered(c: Config, states: seq<System>, events: seq<Event>, i: nat, T: nat, t: nat)
    requires Run(c, states, events) && t <= T < |states| && i < c.nodeNums
    requires forall u :: 0 <= u < T && Applies(c, states[u], events[u], i) ==> InTurn(states[u], events[u])
    ensures InOrder(states[t], i)
    decreases t
  {
    if t > 0 {
      InTurnOrdered(c, states, events, i, T, t - 1);
      RunKeeps(c, states, events, t - 1);
      RunNumbers(c, states, events, t - 1);
      StepOrderIff(c, states[t - 1], events[t - 1], i);
    }
  }
}
