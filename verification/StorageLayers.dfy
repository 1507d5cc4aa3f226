/** The four storage maps of a state object over its trie (vm/state/state_object.go:161-414),
    and the one flat map they stand for. */
module StorageLayers {

  type Key = nat
  type Value = nat
  const ZERO: Value := 0

  /** `base` answers a key that no map holds: the reader's storage, or nothing for an
      address destructed in this block.  `trie` holds non-zero values only. */
  datatype Layers = Layers(
    base: map<Key, Value>,
    origin: map<Key, Value>,
    pending: map<Key, Value>,
    dirty: map<Key, Value>,
    uncommitted: map<Key, Value>,
    trie: map<Key, Value>)

  datatype Diff = Diff(storages: map<Key, Value>, storagesOrigin: map<Key, Value>)

  function At(m: map<Key, Value>, k: Key): Value {
    if k in m then m[k] else ZERO
  }

  /** The value at the last commit. */
  function Clean(l: Layers, k: Key): Value {
    if k in l.origin then l.origin[k] else At(l.base, k)
  }

  /** GetCommittedState: the value at the last finalise. */
  function Committed(l: Layers, k: Key): Value {
    if k in l.pending then l.pending[k] else Clean(l, k)
  }

  /** GetState: the flat map. */
  function Flat(l: Layers, k: Key): Value {
    if k in l.dirty then l.dirty[k] else Committed(l, k)
  }

  // ----- the operations -----

  /** A read caches the clean value. */
  function Load(l: Layers, k: Key): Layers {
    if k in l.pending || k in l.origin then l else l.(origin := l.origin[k := At(l.base, k)])
  }

  /** setState: a write of the committed value removes the dirty mark. */
  function Write(l: Layers, k: Key, v: Value): Layers {
    if v == Committed(l, k) then l.(dirty := l.dirty - {k}) else l.(dirty := l.dirty[k := v])
  }

  function SetState(l: Layers, k: Key, v: Value): Layers {
    var m := Load(l, k);
    if Flat(m, k) == v then m else Write(m, k, v)
  }

  function Finalise(l: Layers): Layers {
    l.(uncommitted :=
         map k | k in l.uncommitted.Keys + l.dirty.Keys &&
                 !(k in l.dirty && k in l.uncommitted && l.uncommitted[k] == l.dirty[k])
               :: if k in l.uncommitted then l.uncommitted[k] else Committed(l, k),
       pending := l.pending + l.dirty,
       dirty := map[])
  }

  /** The keys that updateTrie reports as errors and leaves out. */
  function Refused(l: Layers): set<Key> {
    set k | k in l.uncommitted && (At(l.pending, k) == l.uncommitted[k] || k !in l.pending)
  }

  /** What updateTrie leaves in the trie at a key. */
  function Flushed(l: Layers, k: Key): Value {
    At(if k in l.uncommitted && k !in Refused(l) then l.pending else l.trie, k)
  }

  function UpdateTrie(l: Layers): Layers {
    l.(trie := map k | k in l.trie.Keys + l.uncommitted.Keys && Flushed(l, k) != ZERO :: Flushed(l, k),
       uncommitted := map[])
  }

  predicate Emits(l: Layers, k: Key) {
    k in l.pending && l.pending[k] != At(l.origin, k)
  }

  function Emitted(l: Layers): Diff {
    Diff(map k | k in l.pending && Emits(l, k) :: l.pending[k],
         map k | k in l.pending && Emits(l, k) :: At(l.origin, k))
  }

  function CommitStorage(l: Layers): Layers {
    l.(origin := l.origin + Emitted(l).storages, pending := map[])
  }

  datatype Op = Get(k: Key) | Set(k: Key, v: Value) | Fin | Trie | Commit

  function Apply(l: Layers, op: Op): Layers {
    match op
    case Get(k) => Load(l, k)
    case Set(k, v) => SetState(l, k, v)
    case Fin => Finalise(l)
    case Trie => UpdateTrie(l)
    case Commit => CommitStorage(l)
  }

  function Run(l: Layers, ops: seq<Op>): Layers {
    if ops == [] then l else Apply(Run(l, ops[..|ops| - 1]), ops[|ops| - 1])
  }

  /** A flat map under the same operations: the last write wins, nothing else matters. */
  function FlatRun(v: Value, k: Key, ops: seq<Op>): Value {
    if ops == [] then v
    else
      var last := ops[|ops| - 1];
      if last.Set? && last.k == k then last.v else FlatRun(v, k, ops[..|ops| - 1])
  }

  // ----- invariants, key by key -----

  /** Enough for reads: a written key has its clean value cached, and dirty means changed. */
  predicate Cached(l: Layers, k: Key) {
    && (k in l.pending ==> k in l.origin)
    && (k in l.dirty ==> k in l.origin && l.dirty[k] != Committed(l, k))
  }

  /** The commit marker: set exactly where the trie lags behind, with the trie's value. */
  predicate Marked(l: Layers, k: Key) {
    && (if k in l.uncommitted
        then k in l.pending && l.uncommitted[k] == At(l.trie, k) && l.pending[k] != At(l.trie, k)
        else At(l.trie, k) == Committed(l, k))
    && (k in l.trie ==> l.trie[k] != ZERO)
  }

  ghost predicate Inv(l: Layers) {
    forall k :: Cached(l, k) && Marked(l, k)
  }

  // ----- reads -----

  lemma LoadKeeps(l: Layers, x: Key, k: Key)
    ensures var m := Load(l, x);
            && Committed(m, k) == Committed(l, k) && Clean(m, k) == Clean(l, k)
            && (Cached(l, k) ==> Cached(m, k))
            && (Marked(l, k) ==> Marked(m, k))
            && (k == x && Cached(l, k) ==> k in m.origin)
  {
  }

  lemma WriteKeeps(l: Layers, x: Key, v: Value, k: Key)
    requires Cached(l, k) && x in l.origin
    ensures var m := Write(l, x, v);
            && Cached(m, k)
            && Flat(m, k) == (if x == k then v else Flat(l, k))
            && (Marked(l, k) ==> Marked(m, k))
  {
  }

  /** One step, seen at one key: the flat value changes only by a write to it, and the
      marker stays exact unless a commit finds it set. */
  lemma ApplyKeeps(l: Layers, op: Op, k: Key)
    requires Cached(l, k) && (op.Set? ==> Cached(l, op.k))
    ensures var m := Apply(l, op);
            && Cached(m, k)
            && Flat(m, k) == (if op.Set? && op.k == k then op.v else Flat(l, k))
            && (Marked(l, k) && (op.Commit? ==> k !in l.uncommitted) ==> Marked(m, k))
  {
    match op {
      case Get(x) => LoadKeeps(l, x, k);
      case Set(x, v) =>
        LoadKeeps(l, x, k);
        LoadKeeps(l, x, x);
        if Flat(Load(l, x), x) != v { WriteKeeps(Load(l, x), x, v, k); }
      case Fin =>
      case Trie =>
      case Commit =>
    }
  }

  /** MAIN: in every interleaving, reads agree with one flat map. */
  lemma {:induction false} ReadsRefineFlatMap(l: Layers, ops: seq<Op>, k: Key)
    requires forall x :: Cached(l, x)
    ensures forall x :: Cached(Run(l, ops), x)
    ensures Flat(Run(l, ops), k) == FlatRun(Flat(l, k), k, ops)
    decreases |ops|
  {
    if ops != [] {
      var n := |ops| - 1;
      ReadsRefineFlatMap(l, ops[..n], k);
      forall x ensures Cached(Run(l, ops), x) {
        ApplyKeeps(Run(l, ops[..n]), ops[n], x);
      }
      ApplyKeeps(Run(l, ops[..n]), ops[n], k);
    }
  }

  // ----- the commit markers -----

  /** After updateTrie the trie is the committed view, and neither error branch was taken;
      it is the flat map if and only if everything written was finalised. */
  lemma UpdateTrieSyncs(l: Layers, k: Key)
    requires Cached(l, k) && Marked(l, k)
    ensures k !in Refused(l)
    ensures At(UpdateTrie(l).trie, k) == Committed(l, k)
    ensures At(UpdateTrie(l).trie, k) == Flat(l, k) <==> k !in l.dirty
  {
  }

  /** commitStorage keeps a key's marker exact if and only if updateTrie has cleared it. */
  lemma CommitKeepsIff(l: Layers, k: Key)
    requires Cached(l, k) && Marked(l, k)
    ensures Marked(CommitStorage(l), k) <==> k !in l.uncommitted
  {
  }

  /** Otherwise the next updateTrie takes an error branch at that key, and the trie
      stays behind. */
  lemma EarlyCommitIsRefused(l: Layers, k: Key)
    requires Cached(l, k) && Marked(l, k)
    ensures var m := CommitStorage(l);
            && (k in Refused(m) <==> k in l.uncommitted)
            && (k in l.uncommitted ==> At(UpdateTrie(m).trie, k) != Committed(m, k))
  {
  }

  /** Every commit of the run came after an updateTrie that left no marker. */
  ghost predicate CommitsReady(l: Layers, ops: seq<Op>) {
    forall i :: 0 <= i < |ops| && ops[i].Commit? ==> Run(l, ops[..i]).uncommitted == map[]
  }

  /** MAIN: then at every point of the run the markers are exact: an unmarked key has its
      committed value in the trie, a marked one differs from it, and updateTrie would
      take no error branch. */
  lemma {:induction false} MarkersExact(l: Layers, ops: seq<Op>)
    requires Inv(l) && CommitsReady(l, ops)
    ensures Inv(Run(l, ops)) && Refused(Run(l, ops)) == {}
    decreases |ops|
  {
    if ops != [] {
      var n := |ops| - 1;
      forall i | 0 <= i < n && ops[..n][i].Commit? ensures Run(l, ops[..n][..i]).uncommitted == map[] {
        assert ops[..n][..i] == ops[..i];
      }
      MarkersExact(l, ops[..n]);
      var m := Run(l, ops[..n]);
      forall k ensures Cached(Apply(m, ops[n]), k) && Marked(Apply(m, ops[n]), k) {
        assert Cached(m, k) && Marked(m, k);
        assert ops[n].Set? ==> Cached(m, ops[n].k);
        ApplyKeeps(m, ops[n], k);
      }
    }
    forall k ensures k !in Refused(Run(l, ops)) {
      assert Cached(Run(l, ops), k) && Marked(Run(l, ops), k);
      UpdateTrieSyncs(Run(l, ops), k);
    }
  }

  /** The markers are exact after every operation of the run. */
  ghost predicate ExactThroughout(l: Layers, ops: seq<Op>) {
    forall i :: 0 <= i <= |ops| ==> Inv(Run(l, ops[..i]))
  }

  /** MAIN: from an exact start, the markers are exact throughout a run if and only if every
      commit of it finds no marker. */
  lemma ExactIffCommitsReady(l: Layers, ops: seq<Op>)
    requires Inv(l)
    ensures ExactThroughout(l, ops) <==> CommitsReady(l, ops)
  {
    if CommitsReady(l, ops) {
      forall i | 0 <= i <= |ops| ensures Inv(Run(l, ops[..i])) {
        forall j | 0 <= j < i && ops[..i][j].Commit? ensures Run(l, ops[..i][..j]).uncommitted == map[] {
          assert ops[..i][..j] == ops[..j];
        }
        MarkersExact(l, ops[..i]);
      }
    }
    if ExactThroughout(l, ops) {
      forall i | 0 <= i < |ops| && ops[i].Commit? ensures Run(l, ops[..i]).uncommitted == map[] {
        assert ops[..i + 1][..i] == ops[..i];
        NoMarkerAtCommit(Run(l, ops[..i]), Run(l, ops[..i + 1]));
      }
    }
  }

  lemma NoMarkerAtCommit(l: Layers, m: Layers)
    requires Inv(l) && m == CommitStorage(l) && Inv(m)
    ensures l.uncommitted == map[]
  {
    forall k ensures k !in l.uncommitted {
      assert Cached(l, k) && Marked(l, k) && Marked(m, k);
      CommitKeepsIff(l, k);
    }
  }

  /** One write, finalised and committed with no updateTrie between: the next updateTrie
      refuses the slot. */
  lemma EarlyCommitWitness()
    ensures var empty := Layers(map[], map[], map[], map[], map[], map[]);
            && Inv(empty) && !CommitsReady(empty, [Set(7, 1), Fin, Commit])
            && Refused(Run(empty, [Set(7, 1), Fin, Commit])) == {7}
  {
    var empty := Layers(map[], map[], map[], map[], map[], map[]);
    var ops := [Set(7, 1), Fin, Commit];
    assert ops[..1] == [Set(7, 1)] && ops[..2] == [Set(7, 1), Fin];
    assert [Set(7, 1)][..0] == [] && [Set(7, 1), Fin][..1] == [Set(7, 1)];
    var written := Run(empty, ops[..1]);
    assert written.dirty == map[7 := 1] && written.uncommitted == map[];
    var finalised := Run(empty, ops[..2]);
    assert finalised.uncommitted == map[7 := 0];
    assert ops[2].Commit? && Run(empty, ops[..2]).uncommitted != map[];
  }

  // ----- when updateTrie takes an error branch -----

  /** A marker never equals the pending value it stands against, exact or not. */
  predicate Apart(l: Layers, k: Key) {
    k in l.uncommitted && k in l.pending ==> l.uncommitted[k] != l.pending[k]
  }

  /** What one operation does to the set of refused keys. */
  lemma RefusedStep(l: Layers, op: Op, k: Key)
    requires Cached(l, k) && Apart(l, k) && (op.Set? ==> Cached(l, op.k))
    ensures Apart(Apply(l, op), k)
    ensures k in Refused(Apply(l, op)) <==>
            match op
            case Commit => k in l.uncommitted
            case Trie => false
            case Fin => k in Refused(l) && Flat(l, k) == Committed(l, k)
            case _ => k in Refused(l)
  {
  }

  /** A commit found a marker at k, and since then neither was the trie updated nor a change
      of k finalised. */
  ghost predicate Struck(l: Layers, ops: seq<Op>, k: Key) {
    exists j :: 0 <= j < |ops| && StruckBy(l, ops, j, k)
  }

  ghost predicate StruckBy(l: Layers, ops: seq<Op>, j: nat, k: Key)
    requires j < |ops|
  {
    && ops[j].Commit? && k in Run(l, ops[..j]).uncommitted
    && forall i :: j < i < |ops| ==> !Heals(l, ops, i, k)
  }

  ghost predicate Heals(l: Layers, ops: seq<Op>, i: nat, k: Key)
    requires i < |ops|
  {
    var m := Run(l, ops[..i]);
    ops[i].Trie? || (ops[i].Fin? && Flat(m, k) != Committed(m, k))
  }

  lemma SamePast(l: Layers, ops: seq<Op>, i: nat, k: Key)
    requires i < |ops| - 1
    ensures var front := ops[..|ops| - 1];
            front[..i] == ops[..i] && front[i] == ops[i] && Heals(l, front, i, k) == Heals(l, ops, i, k)
  {
    assert ops[..|ops| - 1][..i] == ops[..i];
  }

  lemma StruckByNext(l: Layers, ops: seq<Op>, j: nat, k: Key)
    requires j < |ops| - 1
    ensures StruckBy(l, ops, j, k) <==> StruckBy(l, ops[..|ops| - 1], j, k) && !Heals(l, ops, |ops| - 1, k)
  {
    var front := ops[..|ops| - 1];
    SamePast(l, ops, j, k);
    forall i | j < i < |front| ensures Heals(l, front, i, k) == Heals(l, ops, i, k) { SamePast(l, ops, i, k); }
  }

  lemma StruckNext(l: Layers, ops: seq<Op>, k: Key)
    requires ops != []
    ensures var n := |ops| - 1;
            Struck(l, ops, k) <==>
            (ops[n].Commit? && k in Run(l, ops[..n]).uncommitted) || (Struck(l, ops[..n], k) && !Heals(l, ops, n, k))
  {
    var n := |ops| - 1;
    forall j | 0 <= j < n
      ensures StruckBy(l, ops, j, k) <==> StruckBy(l, ops[..n], j, k) && !Heals(l, ops, n, k)
    {
      StruckByNext(l, ops, j, k);
    }
    assert StruckBy(l, ops, n, k) <==> ops[n].Commit? && k in Run(l, ops[..n]).uncommitted;
  }

  /** MAIN: after any run from an exact start, updateTrie takes an error branch at k if and
      only if k is struck: some commit came before its updateTrie, and nothing healed it. */
  lemma {:induction false} RefusedIffStruck(l: Layers, ops: seq<Op>, k: Key)
    requires Inv(l)
    ensures Apart(Run(l, ops), k)
    ensures k in Refused(Run(l, ops)) <==> Struck(l, ops, k)
    decreases |ops|
  {
    if ops == [] {
      assert Cached(l, k) && Marked(l, k);
    } else {
      var n := |ops| - 1;
      var m := Run(l, ops[..n]);
      RefusedIffStruck(l, ops[..n], k);
      forall x ensures Cached(l, x) { assert Cached(l, x) && Marked(l, x); }
      ReadsRefineFlatMap(l, ops[..n], k);
      assert Cached(m, k) && (ops[n].Set? ==> Cached(m, ops[n].k));
      RefusedStep(m, ops[n], k);
      StruckNext(l, ops, k);
    }
  }

  // ----- the emitted diff -----

  lemma CleanKept(l: Layers, op: Op, k: Key)
    requires !op.Commit?
    ensures Clean(Apply(l, op), k) == Clean(l, k)
  {
    if op.Set? { LoadKeeps(l, op.k, k); }
  }

  lemma {:induction false} CleanFixed(l: Layers, ops: seq<Op>, k: Key)
    requires forall i :: 0 <= i < |ops| ==> !ops[i].Commit?
    ensures Clean(Run(l, ops), k) == Clean(l, k)
    decreases |ops|
  {
    if ops != [] {
      var n := |ops| - 1;
      CleanFixed(l, ops[..n], k);
      CleanKept(Run(l, ops[..n]), ops[n], k);
    }
  }

  /** MAIN: from one commit to the next, the emitted diff holds exactly the keys whose
      flat value changed, with their new and old values. */
  lemma DiffIsExact(l: Layers, ops: seq<Op>, k: Key)
    requires (forall x :: Cached(l, x)) && l.pending == map[] && l.dirty == map[]
    requires forall i :: 0 <= i < |ops| ==> !ops[i].Commit?
    ensures var now := FlatRun(Flat(l, k), k, ops);
            var d := Emitted(Run(l, ops + [Fin]));
            && (k in d.storages <==> now != Flat(l, k))
            && d.storagesOrigin.Keys == d.storages.Keys
            && (k in d.storages ==> d.storages[k] == now && d.storagesOrigin[k] == Flat(l, k))
  {
    var all := ops + [Fin];
    assert all[..|ops|] == ops;
    ReadsRefineFlatMap(l, all, k);
    CleanFixed(l, all, k);
    var m := Run(l, all);
    assert m.dirty == map[];
    assert Cached(m, k);
  }
}
