/**
 The LSM bitmap with background compaction, one step per lock section.  Any number of inserting
 threads and compaction threads may interleave.  The guarantees hold as long as no thread raises the
 compaction flag over a flag already raised, which one inserting thread alone never does, and
 `TwoInsertersLoseIds` shows what two can do.
 */
module LsmBitmap {

  const COUNTER_LIMIT: nat := 1_000_000

  /** Where an inserting thread stands: after its delta write it samples, checks the flag, sets it, spawns. */
  datatype Inserter = Idle | Wrote | Sampled(due: bool) | Decided | FlagSet

  /** Where a compaction thread stands. */
  datatype Compactor = Spawned | Cloned(newBase: set<nat>) | Merged(newBase: set<nat>) | Swapped | CounterReset | Done

  datatype Config = Config(maxDeltas: nat, maxDeltaSize: nat)

  /** `inserted` is the history of ids ever inserted. */
  datatype State = State(
    base: set<nat>, deltas: seq<set<nat>>, counter: nat, inProgress: bool,
    inserters: map<nat, Inserter>, compactors: map<nat, Compactor>, inserted: set<nat>)

  datatype Action =
    | Insert(t: nat, id: nat) | Sample(t: nat) | CheckFlag(t: nat) | SetFlag(t: nat) | Spawn(t: nat, c: nat)
    | CloneBase(c: nat) | MergeDeltas(c: nat) | SwapBase(c: nat) | ResetCounter(c: nat) | ClearFlag(c: nat)

  const EMPTY := State({}, [{}], 0, false, map[], map[], {})

  function InserterOf(s: State, t: nat): Inserter {
    if t in s.inserters then s.inserters[t] else Idle
  }

  function Union(sets: seq<set<nat>>): set<nat> {
    if sets == [] then {} else Union(sets[..|sets| - 1]) + sets[|sets| - 1]
  }

  /** The three thresholds of `should_compact`. */
  predicate Due(cfg: Config, s: State) {
    || |s.deltas| >= cfg.maxDeltas
    || (s.deltas != [] && |s.deltas[|s.deltas| - 1]| >= cfg.maxDeltaSize)
    || s.counter >= COUNTER_LIMIT
  }

  function InserterStep(cfg: Config, s: State, a: Action): State
    requires a.Insert? || a.Sample? || a.CheckFlag? || a.SetFlag? || a.Spawn?
  {
    match a
    case Insert(t, id) =>
      if InserterOf(s, t).Idle? && s.deltas != [] then
        var last := |s.deltas| - 1;
        s.(deltas := s.deltas[last := s.deltas[last] + {id}], counter := s.counter + 1,
           inserters := s.inserters[t := Wrote], inserted := s.inserted + {id})
      else s
    case Sample(t) =>
      if InserterOf(s, t).Wrote? then s.(inserters := s.inserters[t := Sampled(Due(cfg, s))]) else s
    case CheckFlag(t) =>
      if InserterOf(s, t).Sampled? then
        s.(inserters := s.inserters[t := if !s.inProgress && InserterOf(s, t).due then Decided else Idle])
      else s
    case SetFlag(t) =>
      if InserterOf(s, t).Decided? then s.(inProgress := true, inserters := s.inserters[t := FlagSet]) else s
    case Spawn(t, c) =>
      if InserterOf(s, t).FlagSet? && c !in s.compactors then
        s.(inserters := s.inserters[t := Idle], compactors := s.compactors[c := Spawned])
      else s
  }

  function CompactorStep(s: State, c: nat, a: Action): State
    requires c in s.compactors
  {
    match (a, s.compactors[c])
    case (CloneBase(_), Spawned) =>
      s.(compactors := s.compactors[c := Cloned(s.base)])
    case (MergeDeltas(_), Cloned(newBase)) =>
      s.(deltas := [{}], compactors := s.compactors[c := Merged(newBase + Union(s.deltas))])
    case (SwapBase(_), Merged(newBase)) =>
      s.(base := newBase, compactors := s.compactors[c := Swapped])
    case (ResetCounter(_), Swapped) =>
      s.(counter := 0, compactors := s.compactors[c := CounterReset])
    case (ClearFlag(_), CounterReset) =>
      s.(inProgress := false, compactors := s.compactors[c := Done])
    case _ => s
  }

  function Apply(cfg: Config, s: State, a: Action): State {
    if a.Insert? || a.Sample? || a.CheckFlag? || a.SetFlag? || a.Spawn? then InserterStep(cfg, s, a)
    else if a.c in s.compactors then CompactorStep(s, a.c, a) else s
  }

  function Exec(cfg: Config, s: State, run: seq<Action>): State {
    if run == [] then s else Apply(cfg, Exec(cfg, s, run[..|run| - 1]), run[|run| - 1])
  }

  /** `query`: both locks are held together, so it sees one state. */
  function Query(s: State): set<nat> {
    s.base + Union(s.deltas)
  }

  predicate Active(s: State, c: nat) {
    c in s.compactors && !s.compactors[c].Done?
  }

  /** A compaction stands between clearing the deltas and swapping the base. */
  predicate InWindow(s: State) {
    exists c :: c in s.compactors && s.compactors[c].Merged?
  }

  function InFlight(s: State): set<nat> {
    set c, id | c in s.compactors && s.compactors[c].Merged? && id in s.compactors[c].newBase :: id
  }

  // ---------------------------------------------------------------- the flag as a guard

  predicate CompactorInv(s: State, c: Compactor) {
    match c
    case Spawned => Query(s) == s.inserted
    case Cloned(newBase) => newBase == s.base && Query(s) == s.inserted
    case Merged(newBase) => s.base <= newBase && newBase + Union(s.deltas) == s.inserted
    case Swapped => Query(s) == s.inserted
    case CounterReset => Query(s) == s.inserted
    case Done => true
  }

  predicate Starting(s: State, t: nat) {
    InserterOf(s, t).FlagSet?
  }

  ghost predicate Inv(s: State) {
    && |s.deltas| == 1
    // The flag is up exactly while one compaction is being started or is running.
    && (s.inProgress <==> (exists t :: Starting(s, t)) || exists c :: Active(s, c))
    && (forall t, u :: Starting(s, t) && Starting(s, u) ==> t == u)
    && (forall t, c :: Starting(s, t) ==> !Active(s, c))
    && (forall c, d :: Active(s, c) && Active(s, d) ==> c == d)
    && ((forall c :: !Active(s, c)) ==> Query(s) == s.inserted)
    && (forall c :: c in s.compactors ==> CompactorInv(s, s.compactors[c]))
  }

  predicate IsInserterStep(a: Action) {
    a.Insert? || a.Sample? || a.CheckFlag? || a.SetFlag? || a.Spawn?
  }

  /** The step does not raise the flag over a flag already raised. */
  predicate Guarded(s: State, a: Action) {
    a.SetFlag? && InserterOf(s, a.t).Decided? ==> !s.inProgress
  }

  predicate GuardedFrom(cfg: Config, s: State, run: seq<Action>) {
    run != [] ==>
      GuardedFrom(cfg, s, run[..|run| - 1]) && Guarded(Exec(cfg, s, run[..|run| - 1]), run[|run| - 1])
  }

  predicate GuardedRun(cfg: Config, run: seq<Action>) {
    GuardedFrom(cfg, EMPTY, run)
  }

  predicate OneInserter(a: Action) {
    IsInserterStep(a) ==> a.t == 0
  }

  predicate LoneInserter(s: State) {
    s.inserters.Keys <= {0} && (InserterOf(s, 0).Decided? ==> !s.inProgress)
  }

  lemma LoneInserterStep(cfg: Config, s: State, a: Action)
    requires LoneInserter(s) && OneInserter(a)
    ensures LoneInserter(Apply(cfg, s, a)) && Guarded(s, a)
  {
    hide Due;
  }

  /** A single inserting thread never raises the flag twice. */
  lemma {:induction false} OneInserterIsGuarded(cfg: Config, run: seq<Action>)
    requires forall a <- run :: OneInserter(a)
    ensures GuardedRun(cfg, run) && LoneInserter(Exec(cfg, EMPTY, run))
  {
    if run != [] {
      var front, a := run[..|run| - 1], run[|run| - 1];
      assert a in run && forall b <- front :: b in run;
      OneInserterIsGuarded(cfg, front);
      LoneInserterStep(cfg, Exec(cfg, EMPTY, front), a);
      hide LoneInserter, Apply, Guarded;
    }
  }

  lemma {:induction false} GuardedPrefix(cfg: Config, run: seq<Action>, more: seq<Action>)
    requires GuardedRun(cfg, run + more)
    ensures GuardedRun(cfg, run)
  {
    if more == [] {
      assert run + more == run;
    } else {
      assert (run + more)[..|run + more| - 1] == run + more[..|more| - 1];
      GuardedPrefix(cfg, run, more[..|more| - 1]);
    }
  }

  lemma UnionOfOne(d: set<nat>)
    ensures Union([d]) == d
  {
    assert [d][..0] == [];
  }

  lemma StartingAfter(cfg: Config, s: State, a: Action)
    requires IsInserterStep(a)
    ensures var t := Apply(cfg, s, a);
      && (forall u :: u != a.t ==> (Starting(t, u) <==> Starting(s, u)))
      && (Starting(t, a.t) <==> (a.SetFlag? && InserterOf(s, a.t).Decided?) || (Starting(s, a.t) && t == s))
  {
  }

  lemma ActiveAfter(cfg: Config, s: State, a: Action, c: nat)
    requires IsInserterStep(a)
    ensures Active(Apply(cfg, s, a), c) <==> Active(s, c) || (a.Spawn? && a.c == c && Apply(cfg, s, a) != s)
    ensures c in s.compactors ==>
      c in Apply(cfg, s, a).compactors && Apply(cfg, s, a).compactors[c] == s.compactors[c]
    ensures c in Apply(cfg, s, a).compactors ==> c in s.compactors || Apply(cfg, s, a).compactors[c].Spawned?
  {
  }

  lemma QueryAfter(cfg: Config, s: State, a: Action)
    requires IsInserterStep(a) && |s.deltas| == 1
    ensures var t := Apply(cfg, s, a);
      && |t.deltas| == 1 && t.base == s.base
      && if a.Insert? && t != s then
           Query(t) == Query(s) + {a.id} && t.inserted == s.inserted + {a.id} && Union(t.deltas) == Union(s.deltas) + {a.id}
         else
           t.deltas == s.deltas && t.inserted == s.inserted
  {
    UnionOfOne(s.deltas[0]);
    var t := Apply(cfg, s, a);
    UnionOfOne(t.deltas[0]);
    assert s.deltas == [s.deltas[0]] && t.deltas == [t.deltas[0]];
  }

  lemma InserterKeepsFlag(cfg: Config, s: State, a: Action)
    requires Inv(s) && IsInserterStep(a) && Guarded(s, a)
    ensures var t := Apply(cfg, s, a);
      && (t.inProgress <==> (exists u :: Starting(t, u)) || exists c :: Active(t, c))
      && (forall u, v :: Starting(t, u) && Starting(t, v) ==> u == v)
      && (forall u, c :: Starting(t, u) ==> !Active(t, c))
      && (forall c, d :: Active(t, c) && Active(t, d) ==> c == d)
  {
    var t := Apply(cfg, s, a);
    StartingAfter(cfg, s, a);
    forall c ensures Active(t, c) <==> Active(s, c) || (a.Spawn? && a.c == c && t != s) {
      ActiveAfter(cfg, s, a, c);
    }
    assert t == s || a.SetFlag? || t.inProgress == s.inProgress;
    assert a.Spawn? && t != s ==> Starting(s, a.t) && Active(t, a.c);
    assert a.SetFlag? && t != s ==> Starting(t, a.t) && t.inProgress;
    hide Apply, Active, Starting;
    if t != s && !a.SetFlag? && !a.Spawn? {
      assert forall u :: Starting(t, u) ==> Starting(s, u);
      forall u | Starting(s, u) ensures Starting(t, u) {
        StartingKept(cfg, s, a, u);
      }
    }
  }

  lemma StartingKept(cfg: Config, s: State, a: Action, u: nat)
    requires IsInserterStep(a) && !a.Spawn? && Starting(s, u)
    ensures Starting(Apply(cfg, s, a), u)
  {
  }

  lemma InserterKeeps(cfg: Config, s: State, a: Action)
    requires Inv(s) && IsInserterStep(a) && Guarded(s, a)
    ensures Inv(Apply(cfg, s, a))
  {
    var t := Apply(cfg, s, a);
    InserterKeepsFlag(cfg, s, a);
    QueryAfter(cfg, s, a);
    assert a.Spawn? && t != s ==> Starting(s, a.t);
    forall c | c in t.compactors ensures CompactorInv(t, t.compactors[c]) {
      ActiveAfter(cfg, s, a, c);
      if c in s.compactors {
        assert CompactorInv(s, s.compactors[c]);
      }
    }
    forall c ensures Active(s, c) ==> Active(t, c) {
      ActiveAfter(cfg, s, a, c);
    }
  }

  lemma CompactorKeeps(cfg: Config, s: State, a: Action)
    requires Inv(s) && !IsInserterStep(a)
    ensures Inv(Apply(cfg, s, a))
  {
    var t := Apply(cfg, s, a);
    assert forall u :: Starting(t, u) <==> Starting(s, u);
    if t != s {
      UnionOfOne(s.deltas[0]);
      UnionOfOne({});
      assert s.deltas == [s.deltas[0]];
      assert Active(s, a.c);
      assert forall c :: c != a.c ==> (Active(t, c) <==> Active(s, c));
      assert forall c :: Active(t, c) ==> c == a.c;
      assert a.ClearFlag? || Active(t, a.c);
      assert CompactorInv(s, s.compactors[a.c]);
      assert CompactorInv(t, t.compactors[a.c]);
      forall c | c in t.compactors && c != a.c ensures CompactorInv(t, t.compactors[c]) {
        assert !Active(s, c);
      }
    }
  }

  lemma {:induction false} GuardedKeeps(cfg: Config, s: State, run: seq<Action>)
    requires Inv(s) && GuardedFrom(cfg, s, run)
    ensures Inv(Exec(cfg, s, run))
  {
    if run != [] {
      var front, a := run[..|run| - 1], run[|run| - 1];
      GuardedKeeps(cfg, s, front);
      if IsInserterStep(a) {
        InserterKeeps(cfg, Exec(cfg, s, front), a);
      } else {
        CompactorKeeps(cfg, Exec(cfg, s, front), a);
      }
    }
  }

  lemma RunInv(cfg: Config, run: seq<Action>)
    requires GuardedRun(cfg, run)
    ensures Inv(Exec(cfg, EMPTY, run))
  {
    UnionOfOne({});
    assert Inv(EMPTY);
    GuardedKeeps(cfg, EMPTY, run);
  }

  /**
   In every guarded run, whatever the number of inserting threads: compactions never overlap, one delta exists at every lock
   release, no id is lost or invented when the in-flight base is counted, and a query returns
   exactly the inserted ids except inside a compaction's window.
   */
  lemma NothingLost(cfg: Config, run: seq<Action>)
    requires GuardedRun(cfg, run)
    ensures var s := Exec(cfg, EMPTY, run);
      && (forall c, d :: Active(s, c) && Active(s, d) ==> c == d)
      && |s.deltas| == 1
      && Query(s) + InFlight(s) == s.inserted
      && (!InWindow(s) ==> Query(s) == s.inserted)
  {
    RunInv(cfg, run);
    var s := Exec(cfg, EMPTY, run);
    if InWindow(s) {
      var c :| c in s.compactors && s.compactors[c].Merged?;
      assert Active(s, c);
      assert forall d :: d in s.compactors && s.compactors[d].Merged? ==> Active(s, d);
      assert InFlight(s) == s.compactors[c].newBase;
      assert CompactorInv(s, s.compactors[c]);
    } else {
      assert InFlight(s) == {};
      if c :| Active(s, c) {
        assert CompactorInv(s, s.compactors[c]);
      }
    }
  }

  /** Inside the window a query still returns only inserted ids, and is complete exactly when nothing the
      compaction drained is missing. */
  lemma QueryInWindow(cfg: Config, run: seq<Action>, c: nat)
    requires GuardedRun(cfg, run)
    requires var s := Exec(cfg, EMPTY, run); c in s.compactors && s.compactors[c].Merged?
    ensures var s := Exec(cfg, EMPTY, run);
      && Query(s) <= s.inserted
      && (Query(s) == s.inserted <==> s.compactors[c].newBase <= Query(s))
  {
    RunInv(cfg, run);
    var s := Exec(cfg, EMPTY, run);
    assert CompactorInv(s, s.compactors[c]);
  }

  // ---------------------------------------------------------------- what one step away goes wrong

  lemma ExecSnoc(cfg: Config, s: State, run: seq<Action>, a: Action)
    ensures Exec(cfg, s, run + [a]) == Apply(cfg, Exec(cfg, s, run), a)
  {
    assert (run + [a])[..|run|] == run;
  }

  /** Thread `t` inserts `id`, finds a compaction due and no flag up, and decides to start one. */
  function DecideRun(t: nat, id: nat): seq<Action> {
    [Insert(t, id), Sample(t), CheckFlag(t)]
  }

  /** Whether the `k`-th distinct insert since the last compaction makes another one due. */
  predicate DueAt(cfg: Config, k: nat) {
    cfg.maxDeltas <= 1 || k >= cfg.maxDeltaSize || k >= COUNTER_LIMIT
  }

  /** The number of distinct inserts that stay below every threshold. */
  function Slack(cfg: Config): (n: nat)
    ensures DueAt(cfg, n + 1) && forall k :: 1 <= k <= n ==> !DueAt(cfg, k)
  {
    if cfg.maxDeltas <= 1 || cfg.maxDeltaSize <= 1 then 0
    else if cfg.maxDeltaSize < COUNTER_LIMIT then cfg.maxDeltaSize - 1 else COUNTER_LIMIT - 1
  }

  function Ids(n: nat): set<nat> {
    if n == 0 then {} else Ids(n - 1) + {n - 1}
  }

  lemma {:induction false} IdsSize(n: nat)
    ensures |Ids(n)| == n && forall i :: i in Ids(n) <==> 0 <= i < n
  {
    if n > 0 {
      IdsSize(n - 1);
    }
  }

  /** A bitmap that holds the first `n` ids in its delta and has never compacted. */
  predicate Filled(s: State, n: nat) {
    s.base == {} && s.deltas == [Ids(n)] && s.counter == n && s.inserted == Ids(n) && s.compactors == map[]
  }

  lemma DecideSteps(cfg: Config, s: State, t: nat, id: nat)
    ensures Exec(cfg, s, DecideRun(t, id)) ==
      Apply(cfg, Apply(cfg, Apply(cfg, s, Insert(t, id)), Sample(t)), CheckFlag(t))
  {
    ExecSnoc(cfg, s, [], Insert(t, id));
    ExecSnoc(cfg, s, [Insert(t, id)], Sample(t));
    ExecSnoc(cfg, s, [Insert(t, id), Sample(t)], CheckFlag(t));
    assert DecideRun(t, id) == [Insert(t, id), Sample(t)] + [CheckFlag(t)];
    assert [Insert(t, id), Sample(t)] == [Insert(t, id)] + [Sample(t)] && [] + [Insert(t, id)] == [Insert(t, id)];
  }

  lemma InsertFills(cfg: Config, s: State, t: nat, n: nat)
    requires Filled(s, n) && InserterOf(s, t).Idle?
    ensures var s1 := Apply(cfg, s, Insert(t, n));
      && Filled(s1, n + 1) && s1.inProgress == s.inProgress && s1.inserters == s.inserters[t := Wrote]
      && (Due(cfg, s1) <==> DueAt(cfg, n + 1))
  {
    IdsSize(n + 1);
    var s1 := Apply(cfg, s, Insert(t, n));
    assert s1.deltas == [Ids(n + 1)];
  }

  lemma CheckDecides(cfg: Config, s: State, t: nat)
    requires InserterOf(s, t).Wrote? && !s.inProgress
    ensures Apply(cfg, Apply(cfg, s, Sample(t)), CheckFlag(t)) ==
            s.(inserters := s.inserters[t := if Due(cfg, s) then Decided else Idle])
  {
    hide Due;
    var s2 := Apply(cfg, s, Sample(t));
    assert s2 == s.(inserters := s.inserters[t := Sampled(Due(cfg, s))]);
    var end := if Due(cfg, s) then Decided else Idle;
    assert s.inserters[t := Sampled(Due(cfg, s))][t := end] == s.inserters[t := end];
  }

  /** Inserting the next id leaves the thread idle or decided to compact, as the thresholds say. */
  lemma Decides(cfg: Config, s: State, t: nat, n: nat)
    requires Filled(s, n) && InserterOf(s, t).Idle? && !s.inProgress
    ensures var after := Exec(cfg, s, DecideRun(t, n));
      && Filled(after, n + 1) && !after.inProgress
      && after.inserters == s.inserters[t := if DueAt(cfg, n + 1) then Decided else Idle]
  {
    DecideSteps(cfg, s, t, n);
    InsertFills(cfg, s, t, n);
    var s1 := Apply(cfg, s, Insert(t, n));
    CheckDecides(cfg, s1, t);
    hide Exec, Apply, Due, DueAt, Ids, DecideRun;
    assert s.inserters[t := Wrote][t := if DueAt(cfg, n + 1) then Decided else Idle] ==
           s.inserters[t := if DueAt(cfg, n + 1) then Decided else Idle];
  }

  /** Thread 0 inserts the first `n` ids. */
  function FillRun(n: nat): seq<Action> {
    if n == 0 then [] else FillRun(n - 1) + DecideRun(0, n - 1)
  }

  lemma {:induction false} Fills(cfg: Config, n: nat)
    requires forall k :: 1 <= k <= n ==> !DueAt(cfg, k)
    ensures var s := Exec(cfg, EMPTY, FillRun(n));
      Filled(s, n) && !s.inProgress && s.inserters.Keys <= {0} && InserterOf(s, 0).Idle?
  {
    if n == 0 {
      assert Ids(0) == {};
    } else {
      Fills(cfg, n - 1);
      Decides(cfg, Exec(cfg, EMPTY, FillRun(n - 1)), 0, n - 1);
      ExecAppend(cfg, EMPTY, FillRun(n - 1), DecideRun(0, n - 1));
    }
  }

  /** Thread 0 fills the delta up to the first threshold and decides to compact. */
  function FillAndDecide(cfg: Config): seq<Action> {
    FillRun(Slack(cfg)) + DecideRun(0, Slack(cfg))
  }

  lemma FillsAndDecides(cfg: Config)
    ensures var s := Exec(cfg, EMPTY, FillAndDecide(cfg));
      Filled(s, Slack(cfg) + 1) && !s.inProgress && s.inserters == map[0 := Decided]
  {
    var n := Slack(cfg);
    Fills(cfg, n);
    ExecAppend(cfg, EMPTY, FillRun(n), DecideRun(0, n));
    hide Exec;
    var s := Exec(cfg, EMPTY, FillRun(n));
    Decides(cfg, s, 0, n);
    assert s.inserters[0 := Decided] == map[0 := Decided];
  }

  const OPEN_WINDOW := [SetFlag(0), Spawn(0, 0), CloneBase(0), MergeDeltas(0)]

  /** With one inserter too, and under every configuration, a query inside the window misses ids: here all of them. */
  lemma WindowLosesSight(cfg: Config)
    ensures var s := Exec(cfg, EMPTY, FillAndDecide(cfg) + OPEN_WINDOW);
      InWindow(s) && s.inserted == Ids(Slack(cfg) + 1) && Query(s) == {}
  {
    hide Exec;
    FillsAndDecides(cfg);
    ExecAppend(cfg, EMPTY, FillAndDecide(cfg), OPEN_WINDOW);
    var s := Exec(cfg, EMPTY, FillAndDecide(cfg));
    ExecFour(cfg, s, SetFlag(0), Spawn(0, 0), CloneBase(0), MergeDeltas(0));
    UnionOfOne({});
    var t := Exec(cfg, s, OPEN_WINDOW);
    assert 0 in t.compactors && t.compactors[0].Merged?;
  }

  lemma {:induction false} ExecAppend(cfg: Config, s: State, a: seq<Action>, b: seq<Action>)
    ensures Exec(cfg, s, a + b) == Exec(cfg, Exec(cfg, s, a), b)
  {
    hide Apply;
    if b == [] {
      assert a + b == a;
    } else {
      ExecAppend(cfg, s, a, b[..|b| - 1]);
      assert a + b == (a + b[..|b| - 1]) + [b[|b| - 1]];
      ExecSnoc(cfg, s, a + b[..|b| - 1], b[|b| - 1]);
    }
  }

  lemma ExecTwo(cfg: Config, s: State, a: Action, b: Action)
    ensures Exec(cfg, s, [a, b]) == Apply(cfg, Apply(cfg, s, a), b)
  {
    ExecSnoc(cfg, s, [], a);
    ExecSnoc(cfg, s, [a], b);
    assert [] + [a] == [a] && [a] + [b] == [a, b];
  }

  lemma ExecFour(cfg: Config, s: State, a: Action, b: Action, c: Action, d: Action)
    ensures Exec(cfg, s, [a, b, c, d]) == Apply(cfg, Apply(cfg, Apply(cfg, Apply(cfg, s, a), b), c), d)
  {
    ExecSnoc(cfg, s, [], a);
    ExecSnoc(cfg, s, [a], b);
    ExecSnoc(cfg, s, [a, b], c);
    ExecSnoc(cfg, s, [a, b, c], d);
    assert [] + [a] == [a] && [a] + [b] == [a, b] && [a, b] + [c] == [a, b, c] && [a, b, c] + [d] == [a, b, c, d];
  }

  predicate Pair(s: State, i0: Inserter, i1: Inserter, c0: Compactor, c1: Compactor) {
    && s.inserters.Keys == {0, 1} == s.compactors.Keys
    && s.inserters[0] == i0 && s.inserters[1] == i1 && s.compactors[0] == c0 && s.compactors[1] == c1
  }

  const SPAWN_BOTH := [SetFlag(0), Spawn(0, 0), SetFlag(1), Spawn(1, 1)]
  const OVERLAP := [CloneBase(0), CloneBase(1), MergeDeltas(0), SwapBase(0)]
  const CLOBBER := [MergeDeltas(1), SwapBase(1), ResetCounter(0), ClearFlag(0)]
  const SETTLE := [ResetCounter(1), ClearFlag(1)]

  lemma SpawnsBoth(cfg: Config, s: State)
    requires s.inserters.Keys == {0, 1} && s.inserters[0].Decided? && s.inserters[1].Decided? && s.compactors == map[]
    ensures var t := Exec(cfg, s, SPAWN_BOTH);
      Pair(t, Idle, Idle, Spawned, Spawned) && t.base == s.base && t.deltas == s.deltas && t.inserted == s.inserted
  {
    hide Exec;
    ExecFour(cfg, s, SetFlag(0), Spawn(0, 0), SetFlag(1), Spawn(1, 1));
  }

  lemma Overlaps(cfg: Config, s: State, d: set<nat>)
    requires Pair(s, Idle, Idle, Spawned, Spawned) && s.base == {} && s.deltas == [d]
    ensures var t := Exec(cfg, s, OVERLAP);
      Pair(t, Idle, Idle, Swapped, Cloned({})) && t.base == d && t.deltas == [{}] && t.inserted == s.inserted
  {
    hide Exec;
    UnionOfOne(d);
    ExecFour(cfg, s, CloneBase(0), CloneBase(1), MergeDeltas(0), SwapBase(0));
  }

  lemma Clobbers(cfg: Config, s: State)
    requires Pair(s, Idle, Idle, Swapped, Cloned({})) && s.deltas == [{}]
    ensures var t := Exec(cfg, s, CLOBBER);
      Pair(t, Idle, Idle, Done, Swapped) && t.base == {} && t.deltas == [{}] && t.inserted == s.inserted
  {
    hide Exec;
    UnionOfOne({});
    ExecFour(cfg, s, MergeDeltas(1), SwapBase(1), ResetCounter(0), ClearFlag(0));
  }

  lemma Settles(cfg: Config, s: State)
    requires Pair(s, Idle, Idle, Done, Swapped) && s.base == {} && s.deltas == [{}]
    ensures var t := Exec(cfg, s, SETTLE);
      Pair(t, Idle, Idle, Done, Done) && t.base == {} && t.deltas == [{}] && !t.inProgress && t.inserted == s.inserted
  {
    hide Exec;
    ExecTwo(cfg, s, ResetCounter(1), ClearFlag(1));
  }

  const LOSE := SPAWN_BOTH + OVERLAP + CLOBBER + SETTLE

  lemma Loses(cfg: Config, s: State, d: set<nat>)
    requires s.inserters == map[0 := Decided, 1 := Decided] && s.compactors == map[]
    requires s.base == {} && s.deltas == [d]
    ensures var t := Exec(cfg, s, LOSE);
      Pair(t, Idle, Idle, Done, Done) && !t.inProgress && Query(t) == {} && t.inserted == s.inserted
  {
    hide Exec;
    SpawnsBoth(cfg, s);
    var s1 := Exec(cfg, s, SPAWN_BOTH);
    Overlaps(cfg, s1, d);
    var s2 := Exec(cfg, s1, OVERLAP);
    Clobbers(cfg, s2);
    var s3 := Exec(cfg, s2, CLOBBER);
    Settles(cfg, s3);
    UnionOfOne({});
    ExecAppend(cfg, s, SPAWN_BOTH, OVERLAP);
    ExecAppend(cfg, s, SPAWN_BOTH + OVERLAP, CLOBBER);
    ExecAppend(cfg, s, SPAWN_BOTH + OVERLAP + CLOBBER, SETTLE);
  }

  /** The second thread inserts while the first has decided but not yet raised the flag. */
  function LosingRun(cfg: Config): seq<Action> {
    FillAndDecide(cfg) + DecideRun(1, Slack(cfg) + 1) + LOSE
  }

  /**
   Under every configuration two inserting threads can lose ids for good: at the end every thread is
   idle, every compaction finished, and nothing of what was inserted is left.
   */
  lemma TwoInsertersLoseIds(cfg: Config)
    ensures var s := Exec(cfg, EMPTY, LosingRun(cfg));
      && (forall t <- s.inserters :: s.inserters[t].Idle?) && (forall c :: !Active(s, c)) && !s.inProgress
      && s.inserted == Ids(Slack(cfg) + 2) && Query(s) == {}
  {
    hide Exec;
    hide LOSE;
    hide DecideRun;
    var n := Slack(cfg);
    FillsAndDecides(cfg);
    var s1 := Exec(cfg, EMPTY, FillAndDecide(cfg));
    Decides(cfg, s1, 1, n + 1);
    var s2 := Exec(cfg, s1, DecideRun(1, n + 1));
    assert s2.inserters == map[0 := Decided, 1 := Decided];
    Loses(cfg, s2, Ids(n + 2));
    ExecAppend(cfg, EMPTY, FillAndDecide(cfg), DecideRun(1, n + 1));
    ExecAppend(cfg, EMPTY, FillAndDecide(cfg) + DecideRun(1, n + 1), LOSE);
  }

  // ---------------------------------------------------------------- contains

  /** `contains`: the deltas and the base are read under separate locks. */
  function Contains(atDeltas: State, atBase: State, id: nat): bool {
    id in Union(atDeltas.deltas) || id in atBase.base
  }

  lemma BaseStep(cfg: Config, s: State, a: Action)
    requires Inv(s)
    ensures s.base <= Apply(cfg, s, a).base && s.inserted <= Apply(cfg, s, a).inserted
  {
    if a.SwapBase? && a.c in s.compactors {
      assert CompactorInv(s, s.compactors[a.c]);
    }
  }

  lemma {:induction false} BaseGrows(cfg: Config, run: seq<Action>, more: seq<Action>)
    requires GuardedRun(cfg, run + more)
    ensures Exec(cfg, EMPTY, run).base <= Exec(cfg, EMPTY, run + more).base
    ensures Exec(cfg, EMPTY, run).inserted <= Exec(cfg, EMPTY, run + more).inserted
  {
    if more == [] {
      assert run + more == run;
    } else {
      var front, a := more[..|more| - 1], more[|more| - 1];
      assert run + more == (run + front) + [a];
      assert (run + more)[..|run + more| - 1] == run + front;
      BaseGrows(cfg, run, front);
      ExecSnoc(cfg, EMPTY, run + front, a);
      RunInv(cfg, run + front);
      BaseStep(cfg, Exec(cfg, EMPTY, run + front), a);
      hide *;
    }
  }

  /** With any steps between its two reads, `contains` never invents an id, and misses one only through the window. */
  lemma ContainsIsSound(cfg: Config, run: seq<Action>, more: seq<Action>, id: nat)
    requires GuardedRun(cfg, run + more)
    ensures var s, t := Exec(cfg, EMPTY, run), Exec(cfg, EMPTY, run + more);
      && (Contains(s, t, id) ==> id in t.inserted)
      && (id in s.inserted && !InWindow(s) ==> Contains(s, t, id))
  {
    BaseGrows(cfg, run, more);
    NothingLost(cfg, run + more);
    GuardedPrefix(cfg, run, more);
    NothingLost(cfg, run);
  }

  // ---------------------------------------------------------------- the object, one method per lock section

  lemma UnionSnoc(sets: seq<set<nat>>, n: nat)
    requires n < |sets|
    ensures Union(sets[..n + 1]) == Union(sets[..n]) + sets[n]
  {
    assert sets[..n + 1][..n] == sets[..n];
  }

  lemma {:induction false} UnionHolds(sets: seq<set<nat>>)
    ensures forall id :: id in Union(sets) <==> exists s <- sets :: id in s
  {
    if sets != [] {
      var front, last := sets[..|sets| - 1], sets[|sets| - 1];
      UnionHolds(front);
      assert last in sets && (forall s <- front :: s in sets) && forall s <- sets :: s in front || s == last;
    }
  }

  class Bitmap {
    var base: set<nat>
    var deltas: seq<set<nat>>
    var counter: nat
    var inProgress: bool
    const maxDeltas: nat
    const maxDeltaSize: nat
    ghost var proto: State

    ghost predicate Valid()
      reads this
    {
      && proto.base == base && proto.deltas == deltas && proto.counter == counter && proto.inProgress == inProgress
      && deltas != []
    }

    ghost function Cfg(): Config {
      Config(maxDeltas, maxDeltaSize)
    }

    constructor (maxDeltas: nat := 4, maxDeltaSize: nat := 100_000)
      ensures Valid() && proto == EMPTY && this.maxDeltas == maxDeltas && this.maxDeltaSize == maxDeltaSize
    {
      this.maxDeltas, this.maxDeltaSize := maxDeltas, maxDeltaSize;
      base, deltas, counter, inProgress := {}, [{}], 0, false;
      proto := EMPTY;
    }

    /** The delta write of `insert`. */
    method WriteDelta(t: nat, id: nat)
      requires Valid() && InserterOf(proto, t).Idle?
      modifies this
      ensures Valid() && proto == Apply(Cfg(), old(proto), Insert(t, id))
      ensures var last := |old(deltas)| - 1; deltas == old(deltas)[last := old(deltas)[last] + {id}]
      ensures counter == old(counter) + 1 && base == old(base) && inProgress == old(inProgress)
    {
      var last := |deltas| - 1;
      deltas := deltas[last := deltas[last] + {id}];
      counter := counter + 1;
      proto := Apply(Cfg(), proto, Insert(t, id));
    }

    /** The threshold reads of `should_compact`. */
    method SampleThresholds(t: nat) returns (due: bool)
      requires Valid() && InserterOf(proto, t).Wrote?
      modifies this
      ensures Valid() && proto == Apply(Cfg(), old(proto), Sample(t)) && InserterOf(proto, t) == Sampled(due)
      ensures due <==> |deltas| >= maxDeltas || |deltas[|deltas| - 1]| >= maxDeltaSize || counter >= 1_000_000
    {
      due := |deltas| >= maxDeltas || |deltas[|deltas| - 1]| >= maxDeltaSize || counter >= COUNTER_LIMIT;
      proto := Apply(Cfg(), proto, Sample(t));
    }

    /** The flag read of `should_compact`. */
    method ReadFlag(t: nat, due: bool) returns (compact: bool)
      requires Valid() && InserterOf(proto, t) == Sampled(due)
      modifies this
      ensures Valid() && proto == Apply(Cfg(), old(proto), CheckFlag(t))
      ensures InserterOf(proto, t) == if compact then Decided else Idle
      ensures compact <==> due && !inProgress
    {
      compact := !inProgress && due;
      proto := Apply(Cfg(), proto, CheckFlag(t));
    }

    /** `trigger_compaction_async`: raises the flag, then starts thread `c`. */
    method RaiseFlag(t: nat)
      requires Valid() && InserterOf(proto, t).Decided?
      modifies this
      ensures Valid() && inProgress && proto == Apply(Cfg(), old(proto), SetFlag(t))
    {
      inProgress := true;
      proto := Apply(Cfg(), proto, SetFlag(t));
    }

    method StartThread(t: nat, c: nat)
      requires Valid() && InserterOf(proto, t).FlagSet? && c !in proto.compactors
      modifies this
      ensures Valid() && proto == Apply(Cfg(), old(proto), Spawn(t, c))
    {
      proto := Apply(Cfg(), proto, Spawn(t, c));
    }

    method ReadBase(c: nat) returns (newBase: set<nat>)
      requires Valid() && c in proto.compactors && proto.compactors[c].Spawned?
      modifies this
      ensures Valid() && proto == Apply(Cfg(), old(proto), CloneBase(c)) && proto.compactors[c] == Cloned(newBase)
      ensures newBase == base == old(base)
    {
      newBase := base;
      proto := Apply(Cfg(), proto, CloneBase(c));
    }

    /** Drains the deltas into the new base and leaves one empty delta. */
    method DrainDeltas(c: nat, cloned: set<nat>) returns (newBase: set<nat>)
      requires Valid() && c in proto.compactors && proto.compactors[c] == Cloned(cloned)
      modifies this
      ensures Valid() && proto == Apply(Cfg(), old(proto), MergeDeltas(c)) && proto.compactors[c] == Merged(newBase)
      ensures forall id :: id in newBase <==> id in cloned || exists d <- old(deltas) :: id in d
      ensures deltas == [{}] && base == old(base) && counter == old(counter) && inProgress == old(inProgress)
    {
      newBase := cloned;
      var drained := deltas;
      for i := 0 to |drained|
        invariant Valid() && proto == old(proto)
        invariant newBase == cloned + Union(drained[..i])
      {
        UnionSnoc(drained, i);
        newBase := newBase + drained[i];
      }
      assert drained[..|drained|] == drained;
      UnionHolds(drained);
      deltas := [{}];
      proto := Apply(Cfg(), proto, MergeDeltas(c));
    }

    method InstallBase(c: nat, newBase: set<nat>)
      requires Valid() && c in proto.compactors && proto.compactors[c] == Merged(newBase)
      modifies this
      ensures Valid() && proto == Apply(Cfg(), old(proto), SwapBase(c))
      ensures base == newBase && deltas == old(deltas) && counter == old(counter) && inProgress == old(inProgress)
    {
      base := newBase;
      proto := Apply(Cfg(), proto, SwapBase(c));
    }

    method ZeroCounter(c: nat)
      requires Valid() && c in proto.compactors && proto.compactors[c].Swapped?
      modifies this
      ensures Valid() && proto == Apply(Cfg(), old(proto), ResetCounter(c))
      ensures counter == 0 && base == old(base) && deltas == old(deltas) && inProgress == old(inProgress)
    {
      counter := 0;
      proto := Apply(Cfg(), proto, ResetCounter(c));
    }

    method LowerFlag(c: nat)
      requires Valid() && c in proto.compactors && proto.compactors[c].CounterReset?
      modifies this
      ensures Valid() && !inProgress && proto == Apply(Cfg(), old(proto), ClearFlag(c))
    {
      inProgress := false;
      proto := Apply(Cfg(), proto, ClearFlag(c));
    }

    method QueryAll() returns (result: set<nat>)
      requires Valid()
      ensures result == Query(proto)
      ensures forall id :: id in result <==> id in base || exists d <- deltas :: id in d
    {
      result := base;
      for i := 0 to |deltas|
        invariant result == base + Union(deltas[..i])
      {
        UnionSnoc(deltas, i);
        result := result + deltas[i];
      }
      assert deltas[..|deltas|] == deltas;
      UnionHolds(deltas);
    }
  }
}
