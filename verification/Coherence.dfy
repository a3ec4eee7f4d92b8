/**
 Whether cached query results stay current, with evaluation, the two registration sections and storing
 as separate steps, among account changes and invalidations whose two sections are separate as well.
 */
module Coherence {
  import opened Bytes
  import opened Wrappers
  import opened Invalidation

  /** What a query answers on a set of accounts, and which accounts that answer was read from. */
  datatype Semantics<!V, R> = Semantics(
    eval: (Hash, map<Pubkey, V>) -> R, deps: (Hash, map<Pubkey, V>) -> set<Pubkey>)

  predicate Agree<V(==)>(ps: set<Pubkey>, w: map<Pubkey, V>, w': map<Pubkey, V>) {
    forall p <- ps :: (p in w <==> p in w') && (p in w ==> w[p] == w'[p])
  }

  /** Accounts outside the dependencies change neither the answer nor the dependencies. */
  ghost predicate DependsOnly<V(!new), R>(m: Semantics<V, R>) {
    forall q, w: map<Pubkey, V>, w': map<Pubkey, V> :: Agree(m.deps(q, w), w, w') ==>
      m.eval(q, w') == m.eval(q, w) && m.deps(q, w') == m.deps(q, w)
  }

  /** A result, the accounts it was read from, and those of them that changed since it was evaluated. */
  datatype Item<R> = Item(q: Hash, result: R, deps: set<Pubkey>, changed: set<Pubkey>)

  datatype Stage = Evaluated | HalfRegistered | Registered

  /**
   A result on its way into the cache.  It has missed an invalidation if one was read for an account that
   changed since the evaluation before the job was registered, or removed its query afterwards.
   */
  datatype Job<R> = Job(item: Item<R>, stage: Stage, missed: bool)

  /**
   `pending` holds the accounts changed since they were last passed to an invalidation, `removals` what the
   invalidations under way have read, and `stored` the items behind the cached results.
   */
  datatype System<V, R> = System(
    tracker: State<R>, accounts: map<Pubkey, V>, pending: set<Pubkey>, removals: map<nat, set<Hash>>,
    jobs: map<nat, Job<R>>, stored: map<Hash, Item<R>>)

  datatype Step<V> =
    | Change(p: Pubkey, value: Option<V>)
    | Evaluate(j: nat, q: Hash) | RegisterFirst(j: nat) | RegisterSecond(j: nat) | StoreResult(j: nat)
    | ReadAffected(i: nat, ps: set<Pubkey>) | RemoveAffected(i: nat)

  function Touched<R>(x: Item<R>, p: Pubkey): Item<R> {
    if p in x.deps then x.(changed := x.changed + {p}) else x
  }

  predicate InStage<V, R>(s: System<V, R>, j: nat, stage: Stage) {
    j in s.jobs && s.jobs[j].stage == stage
  }

  function Changed<V, R>(s: System<V, R>, p: Pubkey, value: Option<V>): System<V, R> {
    s.(accounts := if value.Some? then s.accounts[p := value.value] else s.accounts - {p},
       pending := s.pending + {p},
       jobs := map j | j in s.jobs :: s.jobs[j].(item := Touched(s.jobs[j].item, p)),
       stored := map q | q in s.stored :: Touched(s.stored[q], p))
  }

  /** The read section of an invalidation: an unregistered job that depends on a changed account misses it. */
  function Read<V, R>(s: System<V, R>, i: nat, ps: set<Pubkey>): System<V, R> {
    s.(removals := s.removals[i := Affected(s.tracker, ps)],
       pending := s.pending - ps,
       jobs := map j | j in s.jobs ::
         s.jobs[j].(missed := s.jobs[j].missed || (!s.jobs[j].stage.Registered? && s.jobs[j].item.changed * ps != {})))
  }

  /** The removal section: a registered job whose query is removed misses all that follow. */
  function Removed<V, R>(s: System<V, R>, i: nat): System<V, R>
    requires i in s.removals
  {
    var affected := s.removals[i];
    s.(tracker := Apply(s.tracker, Remove(affected)),
       removals := s.removals - {i},
       stored := s.stored - affected,
       jobs := map j | j in s.jobs ::
         s.jobs[j].(missed := s.jobs[j].missed || (s.jobs[j].stage.Registered? && s.jobs[j].item.q in affected)))
  }

  function Next<V, R>(m: Semantics<V, R>, s: System<V, R>, e: Step<V>): System<V, R> {
    match e
    case Change(p, value) => Changed(s, p, value)
    case Evaluate(j, q) =>
      s.(jobs := s.jobs[j := Job(Item(q, m.eval(q, s.accounts), m.deps(q, s.accounts), {}), Evaluated, false)])
    case RegisterFirst(j) =>
      if InStage(s, j, Evaluated) then
        s.(tracker := Apply(s.tracker, RegisterQuery(s.jobs[j].item.q, s.jobs[j].item.deps)),
           jobs := s.jobs[j := s.jobs[j].(stage := HalfRegistered)])
      else s
    case RegisterSecond(j) =>
      if InStage(s, j, HalfRegistered) then
        s.(tracker := Apply(s.tracker, RegisterPubkeys(s.jobs[j].item.q, s.jobs[j].item.deps)),
           jobs := s.jobs[j := s.jobs[j].(stage := Registered)])
      else s
    case StoreResult(j) =>
      if InStage(s, j, Registered) then
        s.(tracker := Apply(s.tracker, Store(s.jobs[j].item.q, s.jobs[j].item.result)),
           stored := s.stored[s.jobs[j].item.q := s.jobs[j].item],
           jobs := s.jobs - {j})
      else s
    case ReadAffected(i, ps) => if i in s.removals then s else Read(s, i, ps)
    case RemoveAffected(i) => if i in s.removals then Removed(s, i) else s
  }

  function Start<V, R>(accounts: map<Pubkey, V>): System<V, R> {
    System(Empty(), accounts, {}, map[], map[], map[])
  }

  function Steps<V, R>(m: Semantics<V, R>, s: System<V, R>, run: seq<Step<V>>): System<V, R> {
    if run == [] then s else Next(m, Steps(m, s, run[..|run| - 1]), run[|run| - 1])
  }

  /** No job that missed an invalidation is stored. */
  predicate StoresInTime<V, R>(s: System<V, R>, e: Step<V>) {
    e.StoreResult? && e.j in s.jobs ==> !s.jobs[e.j].missed
  }

  predicate InTime<V, R>(m: Semantics<V, R>, s: System<V, R>, run: seq<Step<V>>) {
    run != [] ==>
      InTime(m, s, run[..|run| - 1]) && StoresInTime(Steps(m, s, run[..|run| - 1]), run[|run| - 1])
  }

  // ---------------------------------------------------------------- the invariant

  ghost predicate Fresh<V, R>(m: Semantics<V, R>, w: map<Pubkey, V>, x: Item<R>) {
    m.eval(x.q, w) == x.result && m.deps(x.q, w) == x.deps
  }

  ghost predicate LeadsBack<R>(s: State<R>, x: Item<R>) {
    forall p <- x.deps :: x.q in QueriesOf(s.pubkeyQueries, p)
  }

  predicate BeingRemoved(removals: map<nat, set<Hash>>, q: Hash) {
    exists i <- removals :: q in removals[i]
  }

  ghost predicate CurrentUnlessChanged<V, R>(m: Semantics<V, R>, s: System<V, R>, x: Item<R>) {
    x.changed <= x.deps && (x.changed == {} ==> Fresh(m, s.accounts, x))
  }

  /** A change that made the item doubtful is still to be invalidated, or its removal is under way. */
  predicate Watched<V, R>(s: System<V, R>, x: Item<R>) {
    x.changed == {} || x.changed * s.pending != {} || BeingRemoved(s.removals, x.q)
  }

  ghost predicate StoredOk<V, R>(m: Semantics<V, R>, s: System<V, R>, q: Hash, x: Item<R>) {
    && x.q == q && q in s.tracker.cache && s.tracker.cache[q] == x.result
    && CurrentUnlessChanged(m, s, x) && LeadsBack(s.tracker, x) && Watched(s, x)
  }

  ghost predicate JobOk<V, R>(m: Semantics<V, R>, s: System<V, R>, job: Job<R>) {
    && CurrentUnlessChanged(m, s, job.item)
    && (!job.missed ==>
      if job.stage.Registered? then LeadsBack(s.tracker, job.item) && Watched(s, job.item)
      else job.item.changed == {} || job.item.changed * s.pending != {})
  }

  ghost predicate Coherent<V(!new), R>(m: Semantics<V, R>, s: System<V, R>) {
    && s.stored.Keys == s.tracker.cache.Keys
    && (forall q <- s.stored :: StoredOk(m, s, q, s.stored[q]))
    && (forall j <- s.jobs :: JobOk(m, s, s.jobs[j]))
  }

  lemma ChangeKeepsItem<V(!new), R>(m: Semantics<V, R>, s: System<V, R>, p: Pubkey, value: Option<V>, x: Item<R>)
    requires DependsOnly(m) && CurrentUnlessChanged(m, s, x)
    ensures CurrentUnlessChanged(m, Changed(s, p, value), Touched(x, p))
    ensures Touched(x, p).changed == {} || p in Touched(x, p).changed || Touched(x, p).changed == x.changed
  {
    var t := Changed(s, p, value);
    if p !in x.deps && x.changed == {} {
      assert Agree(m.deps(x.q, s.accounts), s.accounts, t.accounts);
    }
  }

  lemma ChangeKeeps<V(!new), R>(m: Semantics<V, R>, s: System<V, R>, p: Pubkey, value: Option<V>)
    requires DependsOnly(m) && Coherent(m, s)
    ensures Coherent(m, Changed(s, p, value))
  {
    var t := Changed(s, p, value);
    hide DependsOnly, CurrentUnlessChanged, BeingRemoved;
    forall q | q in t.stored ensures StoredOk(m, t, q, t.stored[q]) {
      assert StoredOk(m, s, q, s.stored[q]);
      ChangeKeepsItem(m, s, p, value, s.stored[q]);
      WatchedAfterChange(s, p, value, s.stored[q]);
    }
    forall j | j in t.jobs ensures JobOk(m, t, t.jobs[j]) {
      assert JobOk(m, s, s.jobs[j]);
      ChangeKeepsItem(m, s, p, value, s.jobs[j].item);
      WatchedAfterChange(s, p, value, s.jobs[j].item);
    }
  }

  lemma WatchedAfterChange<V, R>(s: System<V, R>, p: Pubkey, value: Option<V>, x: Item<R>)
    ensures var t, y := Changed(s, p, value), Touched(x, p);
      && (Watched(s, x) ==> Watched(t, y))
      && (x.changed == {} || x.changed * s.pending != {} ==> y.changed == {} || y.changed * t.pending != {})
  {
    var t, y := Changed(s, p, value), Touched(x, p);
    if p in x.deps {
      assert p in y.changed * t.pending;
    } else if r :| r in x.changed * s.pending {
      assert r in y.changed * t.pending;
    }
  }

  /** Steps that leave accounts, pending set and removals alone and only add links keep what they do not store. */
  lemma StepKeepsOthers<V(!new), R>(m: Semantics<V, R>, s: System<V, R>, t: System<V, R>, x: Item<R>)
    requires t.accounts == s.accounts && t.pending == s.pending && t.removals == s.removals
    requires forall p: Pubkey :: QueriesOf(s.tracker.pubkeyQueries, p) <= QueriesOf(t.tracker.pubkeyQueries, p)
    ensures CurrentUnlessChanged(m, s, x) ==> CurrentUnlessChanged(m, t, x)
    ensures LeadsBack(s.tracker, x) ==> LeadsBack(t.tracker, x)
    ensures Watched(s, x) ==> Watched(t, x)
  {
  }

  /** A step that only moves job `j` on, and at most adds links. */
  ghost predicate MovesJob<V(!new), R>(s: System<V, R>, t: System<V, R>, j: nat) {
    && t.accounts == s.accounts && t.pending == s.pending && t.removals == s.removals
    && t.stored == s.stored && t.tracker.cache == s.tracker.cache
    && (forall p: Pubkey :: QueriesOf(s.tracker.pubkeyQueries, p) <= QueriesOf(t.tracker.pubkeyQueries, p))
    && forall k :: k != j && k in t.jobs ==> k in s.jobs && t.jobs[k] == s.jobs[k]
  }

  lemma MovingJobKeeps<V(!new), R>(m: Semantics<V, R>, s: System<V, R>, t: System<V, R>, j: nat)
    requires Coherent(m, s) && MovesJob(s, t, j) && (j in t.jobs ==> JobOk(m, t, t.jobs[j]))
    ensures Coherent(m, t)
  {
    hide CurrentUnlessChanged, LeadsBack, Watched, QueriesOf;
    forall q | q in t.stored ensures StoredOk(m, t, q, t.stored[q]) {
      assert StoredOk(m, s, q, s.stored[q]);
      StepKeepsOthers(m, s, t, s.stored[q]);
    }
    forall k | k in t.jobs && k != j ensures JobOk(m, t, t.jobs[k]) {
      assert JobOk(m, s, s.jobs[k]);
      StepKeepsOthers(m, s, t, s.jobs[k].item);
    }
  }

  lemma FirstSectionLinks<R>(s: State<R>, q: Hash, ps: set<Pubkey>)
    ensures var t := Apply(s, RegisterQuery(q, ps)); t.cache == s.cache && t.pubkeyQueries == s.pubkeyQueries
  {
  }

  lemma SecondSectionLinks<R>(s: State<R>, q: Hash, ps: set<Pubkey>)
    ensures var t := Apply(s, RegisterPubkeys(q, ps));
      && t.cache == s.cache
      && (forall p: Pubkey :: QueriesOf(s.pubkeyQueries, p) <= QueriesOf(t.pubkeyQueries, p))
      && forall p <- ps :: q in QueriesOf(t.pubkeyQueries, p)
  {
  }

  lemma EvaluateKeeps<V(!new), R>(m: Semantics<V, R>, s: System<V, R>, j: nat, q: Hash)
    requires Coherent(m, s)
    ensures Coherent(m, Next(m, s, Evaluate(j, q)))
  {
    var t := Next(m, s, Evaluate(j, q));
    assert JobOk(m, t, t.jobs[j]);
    hide Coherent;
    MovingJobKeeps(m, s, t, j);
  }

  lemma RegisterFirstKeeps<V(!new), R>(m: Semantics<V, R>, s: System<V, R>, j: nat)
    requires Coherent(m, s)
    ensures Coherent(m, Next(m, s, RegisterFirst(j)))
  {
    var t := Next(m, s, RegisterFirst(j));
    if InStage(s, j, Evaluated) {
      var x := s.jobs[j].item;
      FirstSectionLinks(s.tracker, x.q, x.deps);
      assert JobOk(m, s, s.jobs[j]);
      assert t.jobs[j].item == x && t.jobs[j].stage == HalfRegistered;
      hide Coherent, Apply, QueriesOf, LeadsBack;
      assert JobOk(m, t, t.jobs[j]);
      MovingJobKeeps(m, s, t, j);
    }
  }

  lemma RegisterSecondKeeps<V(!new), R>(m: Semantics<V, R>, s: System<V, R>, j: nat)
    requires Coherent(m, s)
    ensures Coherent(m, Next(m, s, RegisterSecond(j)))
  {
    var t := Next(m, s, RegisterSecond(j));
    if InStage(s, j, HalfRegistered) {
      var x := s.jobs[j].item;
      SecondSectionLinks(s.tracker, x.q, x.deps);
      assert JobOk(m, s, s.jobs[j]);
      assert t.jobs[j].item == x && t.jobs[j].stage == Registered;
      hide Coherent, Apply, QueriesOf;
      assert JobOk(m, t, t.jobs[j]);
      MovingJobKeeps(m, s, t, j);
    }
  }

  lemma StoreSteps<V, R>(m: Semantics<V, R>, s: System<V, R>, j: nat)
    requires InStage(s, j, Registered)
    ensures var t, x := Next(m, s, StoreResult(j)), s.jobs[j].item;
      && t.accounts == s.accounts && t.pending == s.pending && t.removals == s.removals
      && t.tracker.pubkeyQueries == s.tracker.pubkeyQueries && t.tracker.cache == s.tracker.cache[x.q := x.result]
      && t.stored == s.stored[x.q := x] && t.jobs == s.jobs - {j}
  {
  }

  lemma StoreKeeps<V(!new), R>(m: Semantics<V, R>, s: System<V, R>, j: nat)
    requires Coherent(m, s) && (j in s.jobs ==> !s.jobs[j].missed)
    ensures Coherent(m, Next(m, s, StoreResult(j)))
  {
    if InStage(s, j, Registered) {
      var t, x := Next(m, s, StoreResult(j)), s.jobs[j].item;
      StoreSteps(m, s, j);
      assert JobOk(m, s, s.jobs[j]);
      assert forall p: Pubkey :: QueriesOf(s.tracker.pubkeyQueries, p) <= QueriesOf(t.tracker.pubkeyQueries, p);
      hide Next, QueriesOf, CurrentUnlessChanged, LeadsBack, Watched;
      forall q | q in t.stored ensures StoredOk(m, t, q, t.stored[q]) {
        assert q != x.q ==> StoredOk(m, s, q, s.stored[q]);
        StepKeepsOthers(m, s, t, t.stored[q]);
      }
      forall k | k in t.jobs ensures JobOk(m, t, t.jobs[k]) {
        assert JobOk(m, s, s.jobs[k]);
        StepKeepsOthers(m, s, t, s.jobs[k].item);
      }
    }
  }

  /** Reading the affected queries of some accounts catches every linked item that depends on one of them. */
  lemma ReadCatches<V, R>(s: System<V, R>, i: nat, ps: set<Pubkey>, x: Item<R>)
    requires i !in s.removals && LeadsBack(s.tracker, x) && x.changed <= x.deps && Watched(s, x)
    ensures Watched(Read(s, i, ps), x)
  {
    var t := Read(s, i, ps);
    if BeingRemoved(s.removals, x.q) {
      var k :| k in s.removals && x.q in s.removals[k];
      assert k in t.removals && x.q in t.removals[k];
    } else if x.changed != {} {
      var p :| p in x.changed * s.pending;
      if p in ps {
        assert x.q in QueriesOf(s.tracker.pubkeyQueries, p);
        assert i in t.removals && x.q in t.removals[i];
      } else {
        assert p in x.changed * t.pending;
      }
    }
  }

  lemma StillPending<V, R>(s: System<V, R>, ps: set<Pubkey>, changed: set<Pubkey>)
    requires changed * ps == {}
    ensures changed * (s.pending - ps) == changed * s.pending
  {
    forall p | p in changed * s.pending ensures p in changed * (s.pending - ps) {
      assert p in ps ==> p in changed * ps;
    }
  }

  lemma ReadKeeps<V(!new), R>(m: Semantics<V, R>, s: System<V, R>, i: nat, ps: set<Pubkey>)
    requires Coherent(m, s) && i !in s.removals
    ensures Coherent(m, Read(s, i, ps))
  {
    var t := Read(s, i, ps);
    forall q | q in t.stored ensures StoredOk(m, t, q, t.stored[q]) {
      assert StoredOk(m, s, q, s.stored[q]);
      ReadCatches(s, i, ps, s.stored[q]);
    }
    forall j | j in t.jobs ensures JobOk(m, t, t.jobs[j]) {
      var job := s.jobs[j];
      assert JobOk(m, s, job);
      if !t.jobs[j].missed {
        if job.stage.Registered? {
          ReadCatches(s, i, ps, job.item);
        } else {
          StillPending(s, ps, job.item.changed);
        }
      }
    }
  }

  lemma RemovalSpares<R>(s: State<R>, affected: set<Hash>, x: Item<R>)
    requires LeadsBack(s, x) && x.q !in affected
    ensures LeadsBack(Apply(s, Remove(affected)), x)
  {
    forall p | p in x.deps ensures x.q in QueriesOf(Apply(s, Remove(affected)).pubkeyQueries, p) {
      LinkStep(s, Remove(affected), x.q, p);
    }
  }

  lemma WatchedAfterRemoval<V, R>(s: System<V, R>, i: nat, x: Item<R>)
    requires i in s.removals && Watched(s, x) && x.q !in s.removals[i]
    ensures Watched(Removed(s, i), x)
  {
    var t := Removed(s, i);
    if BeingRemoved(s.removals, x.q) {
      var k :| k in s.removals && x.q in s.removals[k];
      assert k in t.removals && x.q in t.removals[k];
    }
  }

  lemma RemoveKeeps<V(!new), R>(m: Semantics<V, R>, s: System<V, R>, i: nat)
    requires Coherent(m, s) && i in s.removals
    ensures Coherent(m, Removed(s, i))
  {
    var t := Removed(s, i);
    hide BeingRemoved;
    forall q | q in t.stored ensures StoredOk(m, t, q, t.stored[q]) {
      assert StoredOk(m, s, q, s.stored[q]);
      RemovalSpares(s.tracker, s.removals[i], s.stored[q]);
      WatchedAfterRemoval(s, i, s.stored[q]);
    }
    forall j | j in t.jobs ensures JobOk(m, t, t.jobs[j]) {
      var job := s.jobs[j];
      assert JobOk(m, s, job);
      if !t.jobs[j].missed && job.stage.Registered? {
        RemovalSpares(s.tracker, s.removals[i], job.item);
        WatchedAfterRemoval(s, i, job.item);
      }
    }
  }

  // ---------------------------------------------------------------- main results

  /** In every run that stores no result after missing an invalidation, each cached result is current, or a
      change it depends on is still to be invalidated, or its removal is under way. */
  lemma {:induction false} RunCoherent<V(!new), R>(m: Semantics<V, R>, accounts: map<Pubkey, V>, run: seq<Step<V>>)
    requires DependsOnly(m) && InTime(m, Start(accounts), run)
    ensures Coherent(m, Steps(m, Start(accounts), run))
  {
    if run != [] {
      var front, e := run[..|run| - 1], run[|run| - 1];
      RunCoherent(m, accounts, front);
      var s := Steps(m, Start(accounts), front);
      assert Steps(m, Start(accounts), run) == Next(m, s, e) && StoresInTime(s, e);
      hide Coherent, DependsOnly, Steps, InTime, Changed, Read, Removed;
      match e
      case Change(p, value) => ChangeKeeps(m, s, p, value);
      case StoreResult(j) => StoreKeeps(m, s, j);
      case ReadAffected(i, ps) =>
        if i !in s.removals {
          ReadKeeps(m, s, i, ps);
        }
      case RemoveAffected(i) =>
        if i in s.removals {
          RemoveKeeps(m, s, i);
        }
      case Evaluate(j, q) => EvaluateKeeps(m, s, j, q);
      case RegisterFirst(j) => RegisterFirstKeeps(m, s, j);
      case RegisterSecond(j) => RegisterSecondKeeps(m, s, j);
    }
  }

  /** So a cached result none of whose accounts awaits invalidation, and whose removal is not under way, is what
      a fresh evaluation gives now; with every change invalidated that is every cached result. */
  lemma CachedIsFresh<V(!new), R>(m: Semantics<V, R>, accounts: map<Pubkey, V>, run: seq<Step<V>>, q: Hash)
    requires DependsOnly(m) && InTime(m, Start(accounts), run)
    requires q in Steps(m, Start(accounts), run).tracker.cache
    ensures var s := Steps(m, Start(accounts), run);
      && q in s.stored
      && (s.stored[q].deps !! s.pending && !BeingRemoved(s.removals, q) ==> s.tracker.cache[q] == m.eval(q, s.accounts))
      && (s.pending == {} && s.removals == map[] ==> s.tracker.cache[q] == m.eval(q, s.accounts))
  {
    RunCoherent(m, accounts, run);
    var s := Steps(m, Start(accounts), run);
    assert StoredOk(m, s, q, s.stored[q]);
    assert s.removals == map[] ==> !BeingRemoved(s.removals, q);
    if s.stored[q].deps !! s.pending {
      assert s.stored[q].changed * s.pending == {};
    }
  }

  /** A job that nothing comes between is stored in time. */
  lemma UninterruptedIsInTime<V(!new), R>(m: Semantics<V, R>, s: System<V, R>, j: nat, q: Hash)
    ensures var t := Next(m, Next(m, Next(m, s, Evaluate(j, q)), RegisterFirst(j)), RegisterSecond(j));
      && InStage(t, j, Registered) && StoresInTime(t, StoreResult(j))
      && Next(m, t, StoreResult(j)).tracker ==
           Apply(Register(s.tracker, q, m.deps(q, s.accounts)), Store(q, m.eval(q, s.accounts)))
  {
    hide Apply;
  }

  // ---------------------------------------------------------------- what missing an invalidation does

  /** The state after a result was read from `old` accounts and stored although its query was invalidated. */
  ghost predicate StaleAtRest<V, R>(m: Semantics<V, R>, s: System<V, R>, q: Hash) {
    && s.pending == {} && s.removals == map[]
    && q in s.tracker.cache && s.tracker.cache[q] != m.eval(q, s.accounts)
  }

  /** Evaluated before a change, registered and stored after its invalidation. */
  function LateRegistration<V>(q: Hash, p: Pubkey, value: Option<V>): seq<Step<V>> {
    [Evaluate(0, q), Change(p, value), ReadAffected(0, {p}), RemoveAffected(0),
     RegisterFirst(0), RegisterSecond(0), StoreResult(0)]
  }

  /** Evaluated and registered before a change, stored after its invalidation. */
  function LateStore<V>(q: Hash, p: Pubkey, value: Option<V>): seq<Step<V>> {
    [Evaluate(0, q), RegisterFirst(0), RegisterSecond(0), Change(p, value),
     ReadAffected(0, {p}), RemoveAffected(0), StoreResult(0)]
  }

  lemma StepsSnoc<V, R>(m: Semantics<V, R>, s: System<V, R>, run: seq<Step<V>>, e: Step<V>)
    ensures Steps(m, s, run + [e]) == Next(m, Steps(m, s, run), e)
  {
    assert (run + [e])[..|run|] == run;
  }

  lemma SevenSteps<V, R>(m: Semantics<V, R>, s: System<V, R>, run: seq<Step<V>>)
    requires |run| == 7
    ensures Steps(m, s, run) ==
      var s3 := Next(m, Next(m, Next(m, s, run[0]), run[1]), run[2]);
      Next(m, Next(m, Next(m, Next(m, s3, run[3]), run[4]), run[5]), run[6])
  {
    hide Next;
    StepsSnoc(m, s, [], run[0]);
    StepsSnoc(m, s, run[..1], run[1]);
    StepsSnoc(m, s, run[..2], run[2]);
    StepsSnoc(m, s, run[..3], run[3]);
    StepsSnoc(m, s, run[..4], run[4]);
    StepsSnoc(m, s, run[..5], run[5]);
    StepsSnoc(m, s, run[..6], run[6]);
    assert [] + [run[0]] == run[..1] && run[..1] + [run[1]] == run[..2] && run[..2] + [run[2]] == run[..3];
    assert run[..3] + [run[3]] == run[..4] && run[..4] + [run[4]] == run[..5] && run[..5] + [run[5]] == run[..6];
    assert run[..6] + [run[6]] == run;
  }

  /** Job 0 carries result `r` of `q` and stands at `stage`, and the rest of the system is as given. */
  ghost predicate Carries<V, R>(s: System<V, R>, w: map<Pubkey, V>, q: Hash, r: R, stage: Stage,
                                pending: set<Pubkey>, removals: set<nat>) {
    && s.accounts == w && s.pending == pending && s.removals.Keys == removals
    && InStage(s, 0, stage) && s.jobs[0].item.q == q && s.jobs[0].item.result == r
  }

  lemma EvaluateCarries<V, R>(m: Semantics<V, R>, accounts: map<Pubkey, V>, q: Hash)
    ensures Carries(Next(m, Start(accounts), Evaluate(0, q)), accounts, q, m.eval(q, accounts), Evaluated, {}, {})
  {
  }

  lemma ChangeCarries<V, R>(m: Semantics<V, R>, s: System<V, R>, q: Hash, r: R, stage: Stage, p: Pubkey, value: Option<V>)
    requires Carries(s, s.accounts, q, r, stage, {}, {})
    ensures Carries(Next(m, s, Change(p, value)), Changed(s, p, value).accounts, q, r, stage, {p}, {})
  {
  }

  lemma InvalidateCarries<V, R>(m: Semantics<V, R>, s: System<V, R>, q: Hash, r: R, stage: Stage, p: Pubkey)
    requires Carries(s, s.accounts, q, r, stage, {p}, {})
    ensures Carries(Next(m, Next(m, s, ReadAffected(0, {p})), RemoveAffected(0)), s.accounts, q, r, stage, {}, {})
  {
    var t := Next(m, s, ReadAffected(0, {p}));
    assert {p} - {p} == {};
    assert Carries(t, s.accounts, q, r, stage, {}, {0});
    hide Affected, Apply;
  }

  lemma RegisterCarries<V, R>(m: Semantics<V, R>, s: System<V, R>, q: Hash, r: R)
    requires Carries(s, s.accounts, q, r, Evaluated, {}, {})
    ensures Carries(Next(m, Next(m, s, RegisterFirst(0)), RegisterSecond(0)), s.accounts, q, r, Registered, {}, {})
  {
    hide Apply;
  }

  lemma StoreCarried<V, R>(m: Semantics<V, R>, s: System<V, R>, q: Hash, r: R)
    requires Carries(s, s.accounts, q, r, Registered, {}, {}) && m.eval(q, s.accounts) != r
    ensures StaleAtRest(m, Next(m, s, StoreResult(0)), q)
  {
    assert s.removals == map[];
  }

  /** Any change that matters to a query, invalidated between its evaluation and its registration, leaves the
      stale result cached with nothing left to invalidate it. */
  lemma LateRegistrationGoesStale<V(!new), R>(
    m: Semantics<V, R>, accounts: map<Pubkey, V>, q: Hash, p: Pubkey, value: Option<V>)
    requires m.eval(q, Changed(Start<V, R>(accounts), p, value).accounts) != m.eval(q, accounts)
    ensures StaleAtRest(m, Steps(m, Start(accounts), LateRegistration(q, p, value)), q)
  {
    var run, r := LateRegistration(q, p, value), m.eval(q, accounts);
    SevenSteps(m, Start(accounts), run);
    EvaluateCarries(m, accounts, q);
    var s1 := Next(m, Start(accounts), run[0]);
    assert Changed(s1, p, value).accounts == Changed(Start<V, R>(accounts), p, value).accounts;
    hide Steps, Next, Changed, StaleAtRest;
    ChangeCarries(m, s1, q, r, Evaluated, p, value);
    var s2 := Next(m, s1, run[1]);
    InvalidateCarries(m, s2, q, r, Evaluated, p);
    var s4 := Next(m, Next(m, s2, run[2]), run[3]);
    RegisterCarries(m, s4, q, r);
    StoreCarried(m, Next(m, Next(m, s4, run[4]), run[5]), q, r);
  }

  /** And so does one invalidated between registering and storing. */
  lemma LateStoreGoesStale<V(!new), R>(
    m: Semantics<V, R>, accounts: map<Pubkey, V>, q: Hash, p: Pubkey, value: Option<V>)
    requires m.eval(q, Changed(Start<V, R>(accounts), p, value).accounts) != m.eval(q, accounts)
    ensures StaleAtRest(m, Steps(m, Start(accounts), LateStore(q, p, value)), q)
  {
    var run, r := LateStore(q, p, value), m.eval(q, accounts);
    SevenSteps(m, Start(accounts), run);
    EvaluateCarries(m, accounts, q);
    var s1 := Next(m, Start(accounts), run[0]);
    RegisterCarries(m, s1, q, r);
    var s3 := Next(m, Next(m, s1, run[1]), run[2]);
    assert Changed(s3, p, value).accounts == Changed(Start<V, R>(accounts), p, value).accounts;
    hide Steps, Next, Changed, StaleAtRest;
    ChangeCarries(m, s3, q, r, Registered, p, value);
    var s4 := Next(m, s3, run[3]);
    InvalidateCarries(m, s4, q, r, Registered, p);
    StoreCarried(m, Next(m, Next(m, s4, run[4]), run[5]), q, r);
  }
}
