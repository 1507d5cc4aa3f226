/**
 * A run in which a follower applies the second proposal and not the first: four nodes, so
 * f = 1, nothing lost or repeated, and no block missing from any pool.
 */
module PbftOvertaking {
  import opened PbftNodes
  import opened PbftSystem
  import opened PbftOrder

  const SHARD := Config(4, 0, 0)

  /** Every broadcast of the run, in order. */
  const LOG: seq<Message> := [
    PrePrepare(Request("a"), "a", 1), Prepare("a", 1, 1), Prepare("a", 1, 2), Prepare("a", 1, 3),
    Commit("a", 1, 2), Commit("a", 1, 3), Commit("a", 1, 0),
    PrePrepare(Request("b"), "b", 2), Prepare("b", 2, 1), Prepare("b", 2, 2),
    Commit("b", 2, 2), Commit("b", 2, 0)]

  /** The Commits of "a" are slow to reach the follower, node 1. */
  const EVENTS: seq<Event> := [
    Proposal(Request("a")), Delivery(0, 1), Delivery(0, 2), Delivery(0, 3), Delivery(1, 2), Delivery(1, 3),
    Delivery(1, 0), Delivery(2, 0), Delivery(4, 0), Delivery(5, 0),
    Proposal(Request("b")), Delivery(7, 1), Delivery(5, 2), Delivery(6, 2), Delivery(7, 2), Delivery(8, 2),
    Delivery(8, 0), Delivery(9, 0), Delivery(10, 1), Delivery(11, 1)]

  const END := 20

  // ----- the nodes ------------------------------------------------------------------

  function Leader(step: nat): Node {
    var start := Start(SHARD, 0);
    var proposed := start.(locked := true, pool := {"a"}, heights := map[1 := "a"], stage := 2);
    var prepared := proposed.(prepares := map["a" := {Pointer(1, 1)}]);
    var committed := prepared.(prepares := map["a" := {Pointer(1, 1), Pointer(2, 2)}], committed := {"a"}, stage := 3);
    var voted := committed.(commits := map["a" := {Pointer(4, 2)}]);
    var applied := voted.(commits := map["a" := {Pointer(4, 2), Pointer(5, 3)}], applied := ["a"], seqId := 2,
                          pool := {}, replied := {"a"}, stage := 1, locked := false, unlocks := 1);
    var again := applied.(locked := true, pool := {"b"}, heights := map[1 := "a", 2 := "b"], stage := 2);
    var half := again.(prepares := map["a" := {Pointer(1, 1), Pointer(2, 2)}, "b" := {Pointer(8, 1)}]);
    if step == 0 then start
    else if step < 7 then proposed
    else if step == 7 then prepared
    else if step == 8 then committed
    else if step == 9 then voted
    else if step == 10 then applied
    else if step < 17 then again
    else if step == 17 then half
    else half.(prepares := map["a" := {Pointer(1, 1), Pointer(2, 2)}, "b" := {Pointer(8, 1), Pointer(9, 2)}],
               committed := {"a", "b"}, stage := 3)
  }

  function Follower(step: nat): Node {
    var start := Start(SHARD, 1);
    var prepared := start.(pool := {"a"}, heights := map[1 := "a"], stage := 2);
    var both := prepared.(pool := {"a", "b"}, heights := map[1 := "a", 2 := "b"], stage := 3);
    var voted := both.(commits := map["b" := {Pointer(10, 2)}]);
    if step < 2 then start
    else if step < 12 then prepared
    else if step < 19 then both
    else if step == 19 then voted
    else voted.(commits := map["b" := {Pointer(10, 2), Pointer(11, 0)}], applied := ["b"], seqId := 2, pool := {"a"},
                replied := {"b"}, stage := 1)
  }

  function Second(step: nat): Node {
    var start := Start(SHARD, 2);
    var prepared := start.(pool := {"a"}, heights := map[1 := "a"], stage := 2);
    var committed := prepared.(prepares := map["a" := {Pointer(1, 1)}], committed := {"a"}, stage := 3);
    var voted := committed.(commits := map["a" := {Pointer(5, 3)}]);
    var applied := voted.(commits := map["a" := {Pointer(5, 3), Pointer(6, 0)}], applied := ["a"], seqId := 2,
                          pool := {}, replied := {"a"}, stage := 1);
    var again := applied.(pool := {"b"}, heights := map[1 := "a", 2 := "b"], stage := 2);
    if step < 3 then start
    else if step < 5 then prepared
    else if step < 13 then committed
    else if step == 13 then voted
    else if step == 14 then applied
    else if step == 15 then again
    else again.(prepares := map["a" := {Pointer(1, 1)}, "b" := {Pointer(8, 1)}], committed := {"a", "b"}, stage := 3)
  }

  function Third(step: nat): Node {
    var start := Start(SHARD, 3);
    var prepared := start.(pool := {"a"}, heights := map[1 := "a"], stage := 2);
    if step < 4 then start
    else if step < 6 then prepared
    else prepared.(prepares := map["a" := {Pointer(1, 1)}], committed := {"a"}, stage := 3)
  }

  function NodeAt(step: nat, i: nat): Node {
    if i == 0 then Leader(step) else if i == 1 then Follower(step) else if i == 2 then Second(step) else Third(step)
  }

  /** How many broadcasts there are, and which have been delivered, after so many events. */
  function Sent(step: nat): nat {
    if step <= 6 then step
    else if step == 7 then 6
    else if step < 11 then 7
    else if step == 11 then 8
    else if step < 15 then 9
    else if step == 15 then 10
    else if step < 18 then 11
    else 12
  }

  function Given(step: nat): set<(nat, nat)>
    requires step <= END
  {
    if step == 0 then {}
    else match EVENTS[step - 1]
      case Proposal(_) => Given(step - 1)
      case Delivery(k, i) => Given(step - 1) + {(k, i)}
  }

  function State(step: nat): (s: System)
    requires step <= END
  {
    System([NodeAt(step, 0), NodeAt(step, 1), NodeAt(step, 2), NodeAt(step, 3)], LOG[..Sent(step)], Given(step))
  }

  // ----- one event at a time -----------------------------------------------------------

  lemma LeaderProposes(step: nat)
    requires step == 0 || step == 10
    ensures var r := if step == 0 then Request("a") else Request("b");
      ProposeStep(Leader(step), r) == Outcome(Leader(step + 1), [LOG[Sent(step)]])
  {
  }

  /** The receiver takes a delivery at once and becomes the next node. */
  predicate Takes(step: nat, k: nat, i: nat) {
    step < END && k < |LOG| && EVENTS[step] == Delivery(k, i) &&
    !Waits(NodeAt(step, i), LOG[k]) &&
    Handle(NodeAt(step, i), LOG[k], k) ==
      Outcome(NodeAt(step + 1, i), if Sent(step + 1) > Sent(step) && Sent(step) < |LOG| then [LOG[Sent(step)]] else [])
  }

  /** The first of the two Commits that a node needs is counted. */
  lemma HearsFirst(step: nat, k: nat, i: nat, n: Node)
    requires step < END && k < |LOG| && EVENTS[step] == Delivery(k, i) && n == NodeAt(step, i)
    requires Sent(step + 1) == Sent(step) && LOG[k].Commit? && LOG[k].digest !in n.commits && n.f == 1 && n.stage == 3
    requires NodeAt(step + 1, i) == n.(commits := n.commits[LOG[k].digest := {Pointer(k, LOG[k].sender)}])
    ensures Takes(step, k, i)
  {
  }

  /** The second makes it apply a request that it has in its pool. */
  lemma HearsSecond(step: nat, k: nat, i: nat, n: Node, p: Pointer)
    requires step < END && k < |LOG| && EVENTS[step] == Delivery(k, i) && n == NodeAt(step, i)
    requires Sent(step + 1) == Sent(step) && LOG[k].Commit? && n.f == 1 && n.stage == 3
    requires var d, q := LOG[k].digest, Pointer(k, LOG[k].sender);
             d in n.commits && n.commits[d] == {p} && p != q && d in n.pool && d !in n.replied &&
             NodeAt(step + 1, i) == Finished(n.(commits := n.commits[d := {p, q}]), d)
    ensures Takes(step, k, i)
  {
    assert n.commits[LOG[k].digest] + {Pointer(k, LOG[k].sender)} == {p, Pointer(k, LOG[k].sender)};
  }

  lemma FollowerPrepares()
    ensures Takes(1, 0, 1)
  {
  }

  lemma SecondPrepares()
    ensures Takes(2, 0, 2)
  {
  }

  lemma ThirdPrepares()
    ensures Takes(3, 0, 3)
  {
  }

  lemma SecondCommits()
    ensures Takes(4, 1, 2)
  {
    assert VotesFor(WithVote(Second(4).prepares, "a", Pointer(1, 1)), "a") == {Pointer(1, 1)};
  }

  lemma ThirdCommits()
    ensures Takes(5, 1, 3)
  {
    assert VotesFor(WithVote(Third(5).prepares, "a", Pointer(1, 1)), "a") == {Pointer(1, 1)};
  }

  lemma LeaderCounts()
    ensures Takes(6, 1, 0)
  {
    assert VotesFor(WithVote(Leader(6).prepares, "a", Pointer(1, 1)), "a") == {Pointer(1, 1)};
  }

  lemma LeaderCommits()
    ensures Takes(7, 2, 0)
  {
    assert VotesFor(WithVote(Leader(7).prepares, "a", Pointer(2, 2)), "a") == {Pointer(1, 1), Pointer(2, 2)};
  }

  lemma LeaderHears()
    ensures Takes(8, 4, 0)
  {
    HearsFirst(8, 4, 0, Leader(8));
  }

  lemma LeaderApplies()
    ensures Takes(9, 5, 0)
  {
    HearsSecond(9, 5, 0, Leader(9), Pointer(4, 2));
  }

  /** A second proposal takes the follower's stage from 2 to 3. */
  lemma FollowerPreparesAgain()
    ensures Takes(11, 7, 1) && NodeAt(11, 1).stage == 2 && NodeAt(12, 1).stage == 3
  {
  }

  lemma SecondHears()
    ensures Takes(12, 5, 2)
  {
    HearsFirst(12, 5, 2, Second(12));
  }

  lemma SecondApplies()
    ensures Takes(13, 6, 2)
  {
    HearsSecond(13, 6, 2, Second(13), Pointer(5, 3));
  }

  lemma SecondPreparesAgain()
    ensures Takes(14, 7, 2)
  {
  }

  lemma SecondCommitsAgain()
    ensures Takes(15, 8, 2)
  {
    assert VotesFor(WithVote(Second(15).prepares, "b", Pointer(8, 1)), "b") == {Pointer(8, 1)};
  }

  lemma LeaderCountsAgain()
    ensures Takes(16, 8, 0)
  {
    assert VotesFor(WithVote(Leader(16).prepares, "b", Pointer(8, 1)), "b") == {Pointer(8, 1)};
  }

  lemma LeaderCommitsAgain()
    ensures Takes(17, 9, 0)
  {
    assert VotesFor(WithVote(Leader(17).prepares, "b", Pointer(9, 2)), "b") == {Pointer(8, 1), Pointer(9, 2)};
  }

  lemma FollowerHears()
    ensures Takes(18, 10, 1)
  {
    HearsFirst(18, 10, 1, Follower(18));
  }

  /** So Commits of the second are not held back, and a quorum of them applies the second. */
  lemma FollowerOvertakes()
    ensures Takes(19, 11, 1) && NodeAt(19, 1).applied == [] && NodeAt(20, 1).applied == ["b"]
  {
    HearsSecond(19, 11, 1, Follower(19), Pointer(10, 2));
  }

  lemma LogStep(step: nat)
    requires step < END
    ensures LOG[..Sent(step + 1)] == LOG[..Sent(step)] + if Sent(step + 1) > Sent(step) then [LOG[Sent(step)]] else []
  {
  }

  predicate ReceivedBy(step: nat, i: nat)
    requires step < END
  {
    match EVENTS[step] case Proposal(_) => i == 0 case Delivery(_, j) => i == j
  }

  lemma LeaderSame(step: nat)
    requires step < END && !ReceivedBy(step, 0)
    ensures Leader(step + 1) == Leader(step)
  {
  }

  lemma FollowerSame(step: nat)
    requires step < END && !ReceivedBy(step, 1)
    ensures Follower(step + 1) == Follower(step)
  {
  }

  lemma SecondSame(step: nat)
    requires step < END && !ReceivedBy(step, 2)
    ensures Second(step + 1) == Second(step)
  {
  }

  lemma ThirdSame(step: nat)
    requires step < END && !ReceivedBy(step, 3)
    ensures Third(step + 1) == Third(step)
  {
  }

  /** Only the receiver changes. */
  lemma OthersSame(step: nat)
    requires step < END
    ensures forall j :: 0 <= j < 4 && !ReceivedBy(step, j) ==> NodeAt(step + 1, j) == NodeAt(step, j)
  {
    if !ReceivedBy(step, 0) { LeaderSame(step); }
    if !ReceivedBy(step, 1) { FollowerSame(step); }
    if !ReceivedBy(step, 2) { SecondSame(step); }
    if !ReceivedBy(step, 3) { ThirdSame(step); }
  }

  /** When a broadcast is delivered to a node, if it is. */
  function When(k: nat, i: nat): nat {
    if i == 0 then if k == 1 then 6 else if k == 2 then 7 else if k == 4 then 8 else if k == 5 then 9 else k + 8
    else if i == 1 then if k == 0 then 1 else if k == 7 then 11 else k + 8
    else if i == 2 then if k == 0 then 2 else if k == 1 then 4 else k + 7
    else if k == 0 then 3 else 5
  }

  lemma EventWhen(j: nat, k: nat, i: nat)
    requires j < END && EVENTS[j] == Delivery(k, i)
    ensures When(k, i) == j
  {
  }

  lemma {:induction false} GivenEarlier(step: nat, k: nat, i: nat)
    requires step <= END && (k, i) in Given(step)
    ensures When(k, i) < step
  {
    if EVENTS[step - 1] == Delivery(k, i) { EventWhen(step - 1, k, i); } else { GivenEarlier(step - 1, k, i); }
  }

  lemma NotGiven(step: nat, k: nat, i: nat)
    requires step < END && EVENTS[step] == Delivery(k, i)
    ensures (k, i) !in Given(step)
  {
    EventWhen(step, k, i);
    if (k, i) in Given(step) { GivenEarlier(step, k, i); }
  }

  lemma NotProposed(step: nat)
    requires step == 0 || step == 10
    ensures !Proposed(LOG[..Sent(step)], EVENTS[step].r.digest)
  {
  }

  ghost predicate Moves(step: nat)
    requires step < END
  {
    Enabled(SHARD, State(step), EVENTS[step]) && Step(SHARD, State(step), EVENTS[step]) == State(step + 1)
  }

  lemma Placed(step: nat, k: nat, i: nat)
    requires step < END && EVENTS[step] == Delivery(k, i)
    ensures k < Sent(step) && i < 4 && i != Sender(SHARD, LOG[k])
  {
  }

  lemma NodesNext(step: nat, i: nat)
    requires step < END && i < 4 && ReceivedBy(step, i)
    ensures State(step + 1).nodes == State(step).nodes[i := NodeAt(step + 1, i)]
  {
    OthersSame(step);
    var next := State(step).nodes[i := NodeAt(step + 1, i)];
    forall j | 0 <= j < 4 ensures next[j] == NodeAt(step + 1, j) { assert j != i ==> !ReceivedBy(step, j); }
  }

  lemma Proposing(step: nat)
    requires step == 0 || step == 10
    ensures Moves(step)
  {
    LeaderProposes(step);
    LogStep(step);
    NotProposed(step);
    NodesNext(step, 0);
  }

  /** One delivery between any two systems. */
  lemma OneDelivery(c: Config, s: System, t: System, k: nat, i: nat, o: Outcome)
    requires c.leader < |s.nodes| && k < |s.log| && i < |s.nodes| && i != Sender(c, s.log[k])
    requires (k, i) !in s.delivered && !Waits(s.nodes[i], s.log[k]) && o == Handle(s.nodes[i], s.log[k], k)
    requires t.nodes == s.nodes[i := o.node] && t.log == s.log + o.sent && t.delivered == s.delivered + {(k, i)}
    ensures Enabled(c, s, Delivery(k, i)) && Step(c, s, Delivery(k, i)) == t
  {
  }

  /** One delivery, from what its receiver does. */
  lemma Delivered(step: nat, k: nat, i: nat)
    requires Takes(step, k, i)
    ensures Moves(step)
  {
    Placed(step, k, i);
    NotGiven(step, k, i);
    LogStep(step);
    NodesNext(step, i);
    var s, t, o := State(step), State(step + 1), Handle(NodeAt(step, i), LOG[k], k);
    assert s.log[k] == LOG[k] && s.nodes[i] == NodeAt(step, i);
    OneDelivery(SHARD, s, t, k, i, o);
  }

  /** Who takes which broadcast at each delivery. */
  lemma Taken(step: nat) returns (k: nat, i: nat)
    requires step < END && step != 0 && step != 10
    ensures Takes(step, k, i)
  {
    match step
    case 1 => FollowerPrepares(); k, i := 0, 1;
    case 2 => SecondPrepares(); k, i := 0, 2;
    case 3 => ThirdPrepares(); k, i := 0, 3;
    case 4 => SecondCommits(); k, i := 1, 2;
    case 5 => ThirdCommits(); k, i := 1, 3;
    case 6 => LeaderCounts(); k, i := 1, 0;
    case 7 => LeaderCommits(); k, i := 2, 0;
    case 8 => LeaderHears(); k, i := 4, 0;
    case 9 => LeaderApplies(); k, i := 5, 0;
    case 11 => FollowerPreparesAgain(); k, i := 7, 1;
    case 12 => SecondHears(); k, i := 5, 2;
    case 13 => SecondApplies(); k, i := 6, 2;
    case 14 => SecondPreparesAgain(); k, i := 7, 2;
    case 15 => SecondCommitsAgain(); k, i := 8, 2;
    case 16 => LeaderCountsAgain(); k, i := 8, 0;
    case 17 => LeaderCommitsAgain(); k, i := 9, 0;
    case 18 => FollowerHears(); k, i := 10, 1;
    case 19 => FollowerOvertakes(); k, i := 11, 1;
  }

  lemma AnyEvent(step: nat)
    requires step < END
    ensures Moves(step)
  {
    if step == 0 || step == 10 {
      Proposing(step);
    } else {
      var k, i := Taken(step);
      Delivered(step, k, i);
    }
  }

  lemma Begins()
    ensures Init(SHARD, State(0))
  {
  }

  lemma Ends()
    ensures State(END).log == LOG && State(END).nodes[1].applied == ["b"]
  {
    assert LOG[..12] == LOG;
  }

  function States(): (states: seq<System>)
    ensures |states| == END + 1
  {
    seq(END + 1, t requires 0 <= t <= END => State(t))
  }

  lemma IsRun()
    ensures Run(SHARD, States(), EVENTS)
  {
    Begins();
    forall t | 0 <= t < |EVENTS|
      ensures Enabled(SHARD, States()[t], EVENTS[t]) && States()[t + 1] == Step(SHARD, States()[t], EVENTS[t])
    {
      AnyEvent(t);
    }
  }

  /** MAIN: the run is a run, and its follower has applied the second proposal only. */
  lemma Overtaken()
    ensures Run(SHARD, States(), EVENTS)
    ensures Proposals(States()[END].log) == ["a", "b"] && States()[END].nodes[1].applied == ["b"]
    ensures !InOrder(States()[END], 1)
  {
    IsRun();
    Ends();
    TwoProposals();
    assert (["a", "b"])[0] != (["b"])[0];
  }

  lemma NextProposals(k: nat)
    requires k < 12
    ensures Proposals(LOG[..k + 1]) == Proposals(LOG[..k]) + if LOG[k].PrePrepare? then [LOG[k].digest] else []
  {
    assert LOG[..k + 1][..k] == LOG[..k];
  }

  lemma {:induction false} ProposedSoFar(k: nat)
    requires k <= 12
    ensures Proposals(LOG[..k]) == if k == 0 then [] else if k < 8 then ["a"] else ["a", "b"]
  {
    if k > 0 {
      ProposedSoFar(k - 1);
      NextProposals(k - 1);
    }
  }

  lemma TwoProposals()
    ensures Proposals(LOG) == ["a", "b"]
  {
    ProposedSoFar(12);
    assert LOG[..12] == LOG;
  }
}
