/**
 * One consensus node in the normal case of a fixed view
 * (consensus_shard/pbft_all/messageHandle.go and toolFuncs.go).
 */
module PbftNodes {

  type Digest = string

  /** A request carries the digest that getDigest computes from it. */
  datatype Request = Request(digest: Digest)

  datatype Message =
    | PrePrepare(request: Request, digest: Digest, seqId: nat)
    | Prepare(digest: Digest, seqId: nat, sender: nat)
    | Commit(digest: Digest, seqId: nat, sender: nat)

  /**
   * Votes are keyed by the pointer that decoding allocates, a new one for every
   * message received; `serial` tells the pointers apart.
   */
  datatype Pointer = Pointer(serial: nat, sender: nat)

  type Votes = map<Digest, set<Pointer>>

  /** `applied` and `unlocks` record the calls of HandleinCommit and of sequenceLock.Unlock. */
  datatype Node = Node(
    id: nat, view: nat, f: nat,
    seqId: nat, stage: int,
    pool: set<Digest>, heights: map<nat, Digest>,
    prepares: Votes, commits: Votes,
    committed: set<Digest>, replied: set<Digest>,
    locked: bool, unlocks: nat, applied: seq<Digest>)

  datatype Outcome = Outcome(node: Node, sent: seq<Message>)

  function VotesFor(votes: Votes, d: Digest): set<Pointer> {
    if d in votes then votes[d] else {}
  }

  /** set2DMap. */
  function WithVote(votes: Votes, d: Digest, p: Pointer): Votes {
    votes[d := VotesFor(votes, d) + {p}]
  }

  /** A handler waits while its stage has not come and the message is not out of date. */
  predicate Waits(n: Node, m: Message) {
    n.stage < (match m case PrePrepare(_, _, _) => 1 case Prepare(_, _, _) => 2 case Commit(_, _, _) => 3) &&
    m.seqId >= n.seqId
  }

  /** The leader counts received Prepares only, a backup its own as well. */
  function PrepareQuorum(n: Node): int {
    if n.id == n.view then 2 * n.f else 2 * n.f - 1
  }

  function ProposeStep(n: Node, r: Request): (o: Outcome) {
    Outcome(n.(locked := true, pool := n.pool + {r.digest}, heights := n.heights[n.seqId := r.digest], stage := 2),
            [PrePrepare(r, r.digest, n.seqId)])
  }

  /** A Prepare is broadcast whatever the checks say. */
  function PrePrepareStep(n: Node, m: Message): (o: Outcome)
    requires m.PrePrepare?
  {
    var stored :=
      if m.request.digest != m.digest then n
      else n.(pool := n.pool + {m.request.digest}, heights := n.heights[m.seqId := m.request.digest]);
    Outcome(stored.(stage := n.stage + 1), [Prepare(m.digest, m.seqId, n.id)])
  }

  function PrepareStep(n: Node, m: Message, p: Pointer): (o: Outcome)
    requires m.Prepare?
  {
    if m.seqId < n.seqId || m.digest !in n.pool || n.seqId < m.seqId then Outcome(n, [])
    else
      var voted := n.(prepares := WithVote(n.prepares, m.digest, p));
      if |VotesFor(voted.prepares, m.digest)| >= PrepareQuorum(n) && m.digest !in n.committed then
        Outcome(voted.(committed := n.committed + {m.digest}, stage := n.stage + 1),
                [Commit(m.digest, m.seqId, n.id)])
      else Outcome(voted, [])
  }

  /**
   * Enough Commits: the request is applied, and the leader may propose again.
   * Without the request in its pool a node only marks the digest, to ask for it.
   */
  function Finished(n: Node, d: Digest): (r: Node) {
    var done :=
      if d !in n.pool then n
      else n.(applied := n.applied + [d], seqId := n.seqId + 1, pool := n.pool - {d});
    var marked := done.(replied := n.replied + {d}, stage := 1);
    if n.id == n.view then marked.(locked := false, unlocks := n.unlocks + 1) else marked
  }

  function CommitStep(n: Node, m: Message, p: Pointer): (o: Outcome)
    requires m.Commit?
  {
    var voted := n.(commits := WithVote(n.commits, m.digest, p));
    if |VotesFor(voted.commits, m.digest)| >= 2 * n.f && m.digest !in n.replied
    then Outcome(Finished(voted, m.digest), [])
    else Outcome(voted, [])
  }

  function Handle(n: Node, m: Message, serial: nat): (o: Outcome) {
    match m
    case PrePrepare(_, _, _) => PrePrepareStep(n, m)
    case Prepare(_, _, j) => PrepareStep(n, m, Pointer(serial, j))
    case Commit(_, _, j) => CommitStep(n, m, Pointer(serial, j))
  }

  /** The node as the source has it: fields updated in place by the handlers. */
  class PbftConsensusNode {
    const id: nat
    const view: nat
    const f: nat
    var seqId: nat
    var stage: int
    var pool: set<Digest>
    var heights: map<nat, Digest>
    var prepares: Votes
    var commits: Votes
    var committed: set<Digest>
    var replied: set<Digest>
    var locked: bool
    ghost var unlocks: nat
    ghost var applied: seq<Digest>

    ghost function View(): Node
      reads this
    {
      Node(id, view, f, seqId, stage, pool, heights, prepares, commits, committed, replied, locked, unlocks, applied)
    }

    constructor (id: nat, view: nat, nodeNums: nat, height: nat)
      requires nodeNums > 0
      ensures View() == Node(id, view, (nodeNums - 1) / 3, height + 1, 1, {}, map[], map[], map[], {}, {}, false, 0, [])
    {
      this.id, this.view, f := id, view, (nodeNums - 1) / 3;
      seqId, stage := height + 1, 1;
      pool, heights, prepares, commits := {}, map[], map[], map[];
      committed, replied, locked, unlocks, applied := {}, {}, false, 0, [];
    }

    /** set2DMap: records a vote under its pointer. */
    method Set2DMap(isPrepare: bool, d: Digest, p: Pointer)
      modifies this`prepares, this`commits
      ensures prepares == if isPrepare then WithVote(old(prepares), d, p) else old(prepares)
      ensures commits == if isPrepare then old(commits) else WithVote(old(commits), d, p)
    {
      if isPrepare {
        if d !in prepares {
          prepares := prepares[d := {}];
        }
        prepares := prepares[d := prepares[d] + {p}];
      } else {
        if d !in commits {
          commits := commits[d := {}];
        }
        commits := commits[d := commits[d] + {p}];
      }
    }

    /** One turn of Propose, once sequenceLock has been obtained. */
    method Propose(r: Request) returns (sent: seq<Message>)
      requires !locked && id == view
      modifies this
      ensures Outcome(View(), sent) == ProposeStep(old(View()), r)
    {
      locked := true;
      pool := pool + {r.digest};
      heights := heights[seqId := r.digest];
      sent := [PrePrepare(r, r.digest, seqId)];
      stage := 2;
    }

    method HandlePrePrepare(m: Message) returns (sent: seq<Message>)
      requires m.PrePrepare? && !Waits(View(), m)
      modifies this
      ensures Outcome(View(), sent) == PrePrepareStep(old(View()), m)
    {
      if m.request.digest != m.digest {
      } else if seqId < m.seqId {
        pool := pool + {m.request.digest};
        heights := heights[m.seqId := m.request.digest];
      } else {
        pool := pool + {m.request.digest};
        heights := heights[m.seqId := m.request.digest];
      }
      sent := [Prepare(m.digest, m.seqId, id)];
      stage := stage + 1;
    }

    method HandlePrepare(m: Message, p: Pointer) returns (sent: seq<Message>)
      requires m.Prepare? && !Waits(View(), m)
      modifies this
      ensures Outcome(View(), sent) == PrepareStep(old(View()), m, p)
    {
      sent := [];
      if m.seqId < seqId {
        return;
      }
      if m.digest !in pool {
        return;
      } else if seqId < m.seqId {
        return;
      }
      Set2DMap(true, m.digest, p);
      var cnt := CountVotes(prepares[m.digest]);
      var quorum: int := 2 * f;
      if id != view {
        quorum := quorum - 1;
      }
      if cnt >= quorum && m.digest !in committed {
        sent := [Commit(m.digest, m.seqId, id)];
        committed := committed + {m.digest};
        stage := stage + 1;
      }
    }

    method HandleCommit(m: Message, p: Pointer) returns (sent: seq<Message>)
      requires m.Commit? && !Waits(View(), m)
      modifies this
      ensures Outcome(View(), sent) == CommitStep(old(View()), m, p)
    {
      sent := [];
      Set2DMap(false, m.digest, p);
      var cnt := CountVotes(commits[m.digest]);
      if cnt >= 2 * f && m.digest !in replied {
        Finish(m.digest);
      }
    }

    method Finish(d: Digest)
      modifies this
      ensures View() == Finished(old(View()), d)
    {
      if d !in pool {
        replied := replied + {d};
      } else {
        applied := applied + [d];
        replied := replied + {d};
        seqId := seqId + 1;
        pool := pool - {d};
      }
      stage := 1;
      if id == view {
        locked := false;
        unlocks := unlocks + 1;
      }
    }
  }

  method CountVotes(votes: set<Pointer>) returns (cnt: nat)
    ensures cnt == |votes|
  {
    cnt := 0;
    var todo := votes;
    while todo != {}
      invariant cnt + |todo| == |votes|
    {
      var p :| p in todo;
      todo := todo - {p};
      cnt := cnt + 1;
    }
  }
}
