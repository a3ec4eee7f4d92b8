/** Keeps the newest pending update per account between flushes. */
module UpdateReducer {
  import opened Bytes
  import opened Location

  datatype Update = Update(slot: u64, version: u64, location: AccountLocation)

  type Batch = map<Pubkey, Update>

  datatype Add = Add(key: Pubkey, update: Update)

  datatype Event = Added(add: Add) | Flushed

  /** `batches` is the history of flushed batches. */
  datatype State = State(pending: Batch, flushedCount: nat, dedupCount: nat, batches: seq<Batch>)

  const EMPTY := State(map[], 0, 0, [])

  /** Keeps the entry with the higher write version, and the one already there on a tie. */
  function Keep(m: Batch, a: Add): Batch {
    if a.key in m && a.update.version <= m[a.key].version then m else m[a.key := a.update]
  }

  function Apply(s: State, e: Event): State {
    match e
    case Added(a) =>
      s.(pending := Keep(s.pending, a), dedupCount := s.dedupCount + if a.key in s.pending then 1 else 0)
    case Flushed =>
      State(map[], s.flushedCount + |s.pending|, s.dedupCount, s.batches + [s.pending])
  }

  function Exec(run: seq<Event>): State {
    if run == [] then EMPTY else Apply(Exec(run[..|run| - 1]), run[|run| - 1])
  }

  function Adds(run: seq<Event>): seq<Add> {
    if run == [] then []
    else
      var rest := Adds(run[..|run| - 1]);
      var e := run[|run| - 1];
      if e.Added? then rest + [e.add] else rest
  }

  lemma ExecSnoc(run: seq<Event>, e: Event)
    ensures Exec(run + [e]) == Apply(Exec(run), e)
    ensures Adds(run + [e]) == Adds(run) + if e.Added? then [e.add] else []
  {
    assert (run + [e])[..|run|] == run;
  }

  /** The newest update per key of a whole stream, ignoring flushes. */
  function Latest(adds: seq<Add>): Batch {
    if adds == [] then map[] else Keep(Latest(adds[..|adds| - 1]), adds[|adds| - 1])
  }

  /** Merges a later batch into an earlier one by the same rule. */
  function Merge(m: Batch, n: Batch): Batch {
    map k | k in m.Keys + n.Keys ::
      if k !in n then m[k] else if k !in m then n[k] else if n[k].version > m[k].version then n[k] else m[k]
  }

  function MergeAll(batches: seq<Batch>): Batch {
    if batches == [] then map[] else Merge(MergeAll(batches[..|batches| - 1]), batches[|batches| - 1])
  }

  function TotalSize(batches: seq<Batch>): nat {
    if batches == [] then 0 else TotalSize(batches[..|batches| - 1]) + |batches[|batches| - 1]|
  }

  lemma MergeKeep(m: Batch, n: Batch, a: Add)
    ensures Merge(m, Keep(n, a)) == Keep(Merge(m, n), a)
  {
  }

  lemma MergeAllSnoc(batches: seq<Batch>, b: Batch)
    ensures MergeAll(batches + [b]) == Merge(MergeAll(batches), b)
    ensures TotalSize(batches + [b]) == TotalSize(batches) + |b|
  {
    assert (batches + [b])[..|batches|] == batches;
  }

  lemma LatestSnoc(adds: seq<Add>, a: Add)
    ensures Latest(adds + [a]) == Keep(Latest(adds), a)
  {
    assert (adds + [a])[..|adds|] == adds;
  }

  // ---------------------------------------------------------------- main results

  /** Every update offered is pending, was flushed, or was counted as a duplicate. */
  lemma {:induction false} Conservation(run: seq<Event>)
    ensures var s := Exec(run);
      && |Adds(run)| == |s.pending| + s.flushedCount + s.dedupCount
      && s.flushedCount == TotalSize(s.batches)
  {
    if run != [] {
      var front := run[..|run| - 1];
      Conservation(front);
      var s := Exec(front);
      match run[|run| - 1]
      case Added(a) =>
        assert a.key in s.pending ==> s.pending[a.key := a.update].Keys == s.pending.Keys;
        assert Keep(s.pending, a).Keys == s.pending.Keys + {a.key};
        assert |Keep(s.pending, a).Keys| == |s.pending.Keys| + if a.key in s.pending then 0 else 1;
      case Flushed =>
        MergeAllSnoc(s.batches, s.pending);
    }
  }

  /** Wherever the flushes fall, merging the batches in order gives the newest update per key. */
  lemma {:induction false} FlushPlacementIrrelevant(run: seq<Event>)
    ensures Merge(MergeAll(Exec(run).batches), Exec(run).pending) == Latest(Adds(run))
  {
    MergeEmpty(map[]);
    if run != [] {
      var front := run[..|run| - 1];
      var s := Exec(front);
      FlushPlacementIrrelevant(front);
      hide Merge;
      hide Keep;
      match run[|run| - 1]
      case Added(a) =>
        MergeKeep(MergeAll(s.batches), s.pending, a);
        LatestSnoc(Adds(front), a);
      case Flushed =>
        MergeAllSnoc(s.batches, s.pending);
        MergeEmpty(MergeAll(s.batches + [s.pending]));
    }
  }

  lemma MergeEmpty(m: Batch)
    ensures Merge(m, map[]) == m && Merge(map[], m) == m
  {
  }

  /** `u` is the first update of `k` with the highest version. */
  predicate IsLatest(adds: seq<Add>, k: Pubkey, u: Update) {
    exists i :: 0 <= i < |adds| && adds[i] == Add(k, u) && Dominates(adds, i)
  }

  predicate Dominates(adds: seq<Add>, i: int)
    requires 0 <= i < |adds|
  {
    forall j :: 0 <= j < |adds| && adds[j].key == adds[i].key ==>
      adds[j].update.version < adds[i].update.version || (j >= i && adds[j].update.version == adds[i].update.version)
  }

  lemma {:induction false} LatestKeys(adds: seq<Add>, k: Pubkey)
    ensures k in Latest(adds) <==> exists i :: 0 <= i < |adds| && adds[i].key == k
  {
    if adds != [] {
      LatestKeys(adds[..|adds| - 1], k);
    }
  }

  lemma DominatesSnoc(front: seq<Add>, i: nat, last: Add)
    requires i < |front| && Dominates(front, i)
    ensures Dominates(front + [last], i) <==>
      !(last.key == front[i].key && last.update.version > front[i].update.version)
    ensures last.key == front[i].key && last.update.version > front[i].update.version ==>
      Dominates(front + [last], |front|)
  {
    var adds := front + [last];
    assert adds[|front|] == last;
  }

  /** What is kept per key is the first update with the highest version. */
  lemma {:induction false} LatestIsLatest(adds: seq<Add>, k: Pubkey)
    ensures k in Latest(adds) <==> exists i :: 0 <= i < |adds| && adds[i].key == k
    ensures k in Latest(adds) ==> IsLatest(adds, k, Latest(adds)[k])
  {
    LatestKeys(adds, k);
    if adds != [] {
      var front := adds[..|adds| - 1];
      var last := adds[|adds| - 1];
      LatestIsLatest(front, k);
      assert Latest(adds) == Keep(Latest(front), last);
      assert adds == front + [last];
      LatestKeys(front, k);
      hide Latest;
      if k in Latest(front) {
        var i :| 0 <= i < |front| && front[i] == Add(k, Latest(front)[k]) && Dominates(front, i);
        DominatesSnoc(front, i, last);
        assert adds[i] == front[i];
      } else if last.key == k {
        assert Dominates(adds, |adds| - 1);
      }
    }
  }

  predicate DistinctVersions(adds: seq<Add>) {
    forall i, j :: 0 <= i < j < |adds| && adds[i].key == adds[j].key ==>
      adds[i].update.version != adds[j].update.version
  }

  /** With distinct versions per key, the order of the stream does not matter. */
  lemma LatestOfPermutation(a: seq<Add>, b: seq<Add>)
    requires multiset(a) == multiset(b) && DistinctVersions(a)
    ensures Latest(a) == Latest(b)
  {
    hide IsLatest;
    hide Latest;
    SameElements(a, b);
    forall k: Pubkey ensures k in Latest(a) <==> k in Latest(b) {
      KeyCarries(a, b, k);
      KeyCarries(b, a, k);
    }
    forall k | k in Latest(a) ensures Latest(a)[k] == Latest(b)[k] {
      LatestIsLatest(a, k);
      LatestIsLatest(b, k);
      SameLatest(a, b, k, Latest(a)[k], Latest(b)[k]);
    }
  }

  lemma KeyCarries(a: seq<Add>, b: seq<Add>, k: Pubkey)
    requires forall x <- a :: x in b
    ensures k in Latest(a) ==> k in Latest(b)
  {
    hide Latest;
    hide IsLatest;
    LatestIsLatest(a, k);
    LatestIsLatest(b, k);
    if k in Latest(a) {
      var i :| 0 <= i < |a| && a[i].key == k;
      assert a[i] in b;
    }
  }

  lemma SameLatest(a: seq<Add>, b: seq<Add>, k: Pubkey, u: Update, v: Update)
    requires (forall x <- a :: x in b) && (forall x <- b :: x in a) && DistinctVersions(a)
    requires IsLatest(a, k, u) && IsLatest(b, k, v)
    ensures u == v
  {
    hide Latest;
    var i :| 0 <= i < |a| && a[i] == Add(k, u) && Dominates(a, i);
    var j :| 0 <= j < |b| && b[j] == Add(k, v) && Dominates(b, j);
    assert b[j] in a && a[i] in b;
    var i' :| 0 <= i' < |a| && a[i'] == b[j];
    var j' :| 0 <= j' < |b| && b[j'] == a[i];
    assert v.version <= u.version && u.version <= v.version;
  }

  lemma SameElements(a: seq<Add>, b: seq<Add>)
    requires multiset(a) == multiset(b)
    ensures forall x <- a :: x in b
    ensures forall x <- b :: x in a
  {
    forall x | x in a ensures x in b {
      assert x in multiset(a);
    }
    forall x | x in b ensures x in a {
      assert x in multiset(b);
    }
  }

  // ---------------------------------------------------------------- the object

  class Reducer {
    var pending: Batch
    var flushedCount: nat
    var dedupCount: nat
    const flushThreshold: nat
    ghost var run: seq<Event>

    ghost predicate Valid()
      reads this
    {
      Exec(run).pending == pending && Exec(run).flushedCount == flushedCount && Exec(run).dedupCount == dedupCount
    }

    constructor (flushThreshold: nat := 10_000)
      ensures Valid() && run == [] && this.flushThreshold == flushThreshold
    {
      this.flushThreshold := flushThreshold;
      pending, flushedCount, dedupCount, run := map[], 0, 0, [];
    }

    method AddUpdate(key: Pubkey, u: Update) returns (isDedup: bool)
      requires Valid()
      modifies this
      ensures Valid() && run == old(run) + [Added(Add(key, u))]
      ensures isDedup <==> key in old(pending)
    {
      ExecSnoc(run, Added(Add(key, u)));
      isDedup := key in pending;
      if isDedup {
        dedupCount := dedupCount + 1;
      }
      var shouldUpdate := if key in pending then u.version > pending[key].version else true;
      if shouldUpdate {
        pending := pending[key := u];
      }
      run := run + [Added(Add(key, u))];
    }

    method ShouldFlush() returns (r: bool)
      ensures r <==> |pending| >= flushThreshold
    {
      r := |pending| >= flushThreshold;
    }

    method Flush() returns (updates: Batch)
      requires Valid()
      modifies this
      ensures Valid() && run == old(run) + [Flushed]
      ensures updates == old(pending) && pending == map[]
    {
      ExecSnoc(run, Flushed);
      updates := pending;
      pending := map[];
      flushedCount := flushedCount + |updates|;
      run := run + [Flushed];
    }
  }
}
