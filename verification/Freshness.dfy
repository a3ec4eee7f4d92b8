/** Exactly which cached query results stay fresh, whatever changes and invalidations follow. */
module Freshness {
  import opened Bytes
  import opened Wrappers
  import opened Invalidation
  import opened Coherence

  predicate LeadsTo<V, R>(s: System<V, R>, p: Pubkey, q: Hash) {
    q in QueriesOf(s.tracker.pubkeyQueries, p)
  }

  /** The cached result of `q` is on its way out: its removal is under way, or a changed account leads to it. */
  predicate Caught<V, R>(s: System<V, R>, q: Hash) {
    BeingRemoved(s.removals, q) || exists p <- s.pending :: LeadsTo(s, p, q)
  }

  /** The cached result is what a fresh evaluation gives, and every account that one reads leads to it. */
  ghost predicate Current<V(!new), R>(m: Semantics<V, R>, s: System<V, R>, q: Hash) {
    && q in s.tracker.cache && s.tracker.cache[q] == m.eval(q, s.accounts)
    && forall p <- m.deps(q, s.accounts) :: LeadsTo(s, p, q)
  }

  ghost predicate CaughtOrCurrent<V(!new), R>(m: Semantics<V, R>, s: System<V, R>, q: Hash) {
    q in s.tracker.cache ==> Caught(s, q) || Current(m, s, q)
  }

  // ---------------------------------------------------------------- every continuation

  predicate StoresFor<V, R>(s: System<V, R>, e: Step<V>, q: Hash) {
    e.StoreResult? && InStage(s, e.j, Registered) && s.jobs[e.j].item.q == q
  }

  /** No other result of `q` is stored. */
  predicate Undisturbed<V, R>(m: Semantics<V, R>, s: System<V, R>, run: seq<Step<V>>, q: Hash) {
    run != [] ==>
      Undisturbed(m, s, run[..|run| - 1], q) && !StoresFor(Steps(m, s, run[..|run| - 1]), run[|run| - 1], q)
  }

  /** However the run goes on, the result is never stale with nothing left to invalidate. */
  ghost predicate StaysFresh<V(!new), R>(m: Semantics<V, R>, s: System<V, R>, q: Hash) {
    forall more: seq<Step<V>> :: Undisturbed(m, s, more, q) ==> !StaleAtRest(m, Steps(m, s, more), q)
  }

  lemma QuietStepKeeps<V(!new), R>(m: Semantics<V, R>, s: System<V, R>, t: System<V, R>, q: Hash)
    requires CaughtOrCurrent(m, s, q) && t.accounts == s.accounts && t.pending == s.pending && t.removals == s.removals
    requires q in t.tracker.cache ==> q in s.tracker.cache && t.tracker.cache[q] == s.tracker.cache[q]
    requires forall p :: LeadsTo(s, p, q) ==> LeadsTo(t, p, q)
    ensures CaughtOrCurrent(m, t, q)
  {
    hide LeadsTo, BeingRemoved;
  }

  lemma RegisterSecondLeads<V, R>(m: Semantics<V, R>, s: System<V, R>, j: nat, p: Pubkey, q: Hash)
    requires LeadsTo(s, p, q)
    ensures LeadsTo(Next(m, s, RegisterSecond(j)), p, q)
  {
    if InStage(s, j, HalfRegistered) {
      SecondSectionLinks(s.tracker, s.jobs[j].item.q, s.jobs[j].item.deps);
    }
  }

  lemma ChangeStep<V(!new), R>(m: Semantics<V, R>, s: System<V, R>, p: Pubkey, value: Option<V>, q: Hash)
    requires DependsOnly(m) && CaughtOrCurrent(m, s, q)
    ensures CaughtOrCurrent(m, Changed(s, p, value), q)
  {
    var t := Changed(s, p, value);
    assert t.tracker == s.tracker && t.removals == s.removals && t.pending == s.pending + {p};
    assert forall r :: LeadsTo(s, r, q) <==> LeadsTo(t, r, q);
    if q in s.tracker.cache {
      if Caught(s, q) {
        if !BeingRemoved(s.removals, q) {
          var r :| r in s.pending && LeadsTo(s, r, q);
          assert r in t.pending;
        }
      } else if p in m.deps(q, s.accounts) {
        assert p in t.pending && LeadsTo(t, p, q);
      } else {
        assert Agree(m.deps(q, s.accounts), s.accounts, t.accounts);
      }
    }
  }

  lemma ReadStep<V(!new), R>(m: Semantics<V, R>, s: System<V, R>, i: nat, ps: set<Pubkey>, q: Hash)
    requires CaughtOrCurrent(m, s, q) && i !in s.removals
    ensures CaughtOrCurrent(m, Read(s, i, ps), q)
  {
    var t := Read(s, i, ps);
    assert t.tracker == s.tracker && t.accounts == s.accounts;
    assert forall r :: LeadsTo(s, r, q) <==> LeadsTo(t, r, q);
    if BeingRemoved(s.removals, q) {
      var k :| k in s.removals && q in s.removals[k];
      assert k in t.removals && q in t.removals[k];
    } else if r :| r in s.pending && LeadsTo(s, r, q) {
      if r in ps {
        assert i in t.removals && q in t.removals[i];
      } else {
        assert r in t.pending;
      }
    }
  }

  lemma RemovalLeads<V, R>(s: System<V, R>, i: nat, p: Pubkey, q: Hash)
    requires i in s.removals && q !in s.removals[i]
    ensures LeadsTo(Removed(s, i), p, q) <==> LeadsTo(s, p, q)
  {
    LinkStep(s.tracker, Remove(s.removals[i]), q, p);
  }

  lemma RemoveStep<V(!new), R>(m: Semantics<V, R>, s: System<V, R>, i: nat, q: Hash)
    requires CaughtOrCurrent(m, s, q) && i in s.removals
    ensures CaughtOrCurrent(m, Removed(s, i), q)
  {
    var t := Removed(s, i);
    if q in t.tracker.cache {
      assert q !in s.removals[i] && t.accounts == s.accounts && t.pending == s.pending;
      forall p ensures LeadsTo(t, p, q) <==> LeadsTo(s, p, q) {
        RemovalLeads(s, i, p, q);
      }
      hide LeadsTo;
      if BeingRemoved(s.removals, q) {
        var k :| k in s.removals && q in s.removals[k];
        assert k in t.removals && q in t.removals[k];
      } else if r :| r in s.pending && LeadsTo(s, r, q) {
        assert r in t.pending && LeadsTo(t, r, q);
      }
    }
  }

  lemma StepKeeps<V(!new), R>(m: Semantics<V, R>, s: System<V, R>, e: Step<V>, q: Hash)
    requires DependsOnly(m) && CaughtOrCurrent(m, s, q) && !StoresFor(s, e, q)
    ensures CaughtOrCurrent(m, Next(m, s, e), q)
  {
    hide DependsOnly, CaughtOrCurrent, Changed, Read, Removed, QueriesOf;
    match e
    case Change(p, value) => ChangeStep(m, s, p, value, q);
    case ReadAffected(i, ps) =>
      if i !in s.removals {
        ReadStep(m, s, i, ps, q);
      }
    case RemoveAffected(i) =>
      if i in s.removals {
        RemoveStep(m, s, i, q);
      }
    case RegisterSecond(j) =>
      forall p | LeadsTo(s, p, q) ensures LeadsTo(Next(m, s, e), p, q) {
        RegisterSecondLeads(m, s, j, p, q);
      }
      QuietStepKeeps(m, s, Next(m, s, e), q);
    case _ => QuietStepKeeps(m, s, Next(m, s, e), q);
  }

  lemma {:induction false} RunKeeps<V(!new), R>(m: Semantics<V, R>, s: System<V, R>, run: seq<Step<V>>, q: Hash)
    requires DependsOnly(m) && CaughtOrCurrent(m, s, q) && Undisturbed(m, s, run, q)
    ensures CaughtOrCurrent(m, Steps(m, s, run), q)
  {
    hide DependsOnly, CaughtOrCurrent, Next, StoresFor;
    if run != [] {
      RunKeeps(m, s, run[..|run| - 1], q);
      StepKeeps(m, Steps(m, s, run[..|run| - 1]), run[|run| - 1], q);
    }
  }

  // ---------------------------------------------------------------- a way to be stale

  ghost predicate NoStores<V>(run: seq<Step<V>>) {
    forall e <- run :: !e.StoreResult?
  }

  lemma {:induction false} NoStoresIsUndisturbed<V, R>(m: Semantics<V, R>, s: System<V, R>, run: seq<Step<V>>, q: Hash)
    requires NoStores(run)
    ensures Undisturbed(m, s, run, q)
  {
    if run != [] {
      assert run[|run| - 1] in run && forall e <- run[..|run| - 1] :: e in run;
      NoStoresIsUndisturbed(m, s, run[..|run| - 1], q);
    }
  }

  lemma {:induction false} StepsAppend<V, R>(m: Semantics<V, R>, s: System<V, R>, a: seq<Step<V>>, b: seq<Step<V>>)
    ensures Steps(m, s, a + b) == Steps(m, Steps(m, s, a), b)
  {
    hide Next;
    if b == [] {
      assert a + b == a;
    } else {
      StepsAppend(m, s, a, b[..|b| - 1]);
      assert a + b == (a + b[..|b| - 1]) + [b[|b| - 1]];
      StepsSnoc(m, s, a + b[..|b| - 1], b[|b| - 1]);
    }
  }

  lemma OneStep<V, R>(m: Semantics<V, R>, s: System<V, R>, e: Step<V>)
    ensures Steps(m, s, [e]) == Next(m, s, e)
  {
    StepsSnoc(m, s, [], e);
    assert [] + [e] == [e];
    hide Next;
  }

  /** For `q` nothing has happened: same cached result, same accounts, same accounts leading to it. */
  ghost predicate SameFor<V(!new), R>(s: System<V, R>, t: System<V, R>, q: Hash) {
    && t.accounts == s.accounts
    && q in s.tracker.cache && q in t.tracker.cache && t.tracker.cache[q] == s.tracker.cache[q]
    && forall p :: LeadsTo(t, p, q) <==> LeadsTo(s, p, q)
  }

  lemma RemovalPasses<V(!new), R>(m: Semantics<V, R>, s: System<V, R>, i: nat, q: Hash)
    requires q in s.tracker.cache && i in s.removals && q !in s.removals[i]
    ensures var t := Next(m, s, RemoveAffected(i));
      SameFor(s, t, q) && t.pending == s.pending && t.removals == s.removals - {i}
  {
    forall p ensures LeadsTo(Removed(s, i), p, q) <==> LeadsTo(s, p, q) {
      RemovalLeads(s, i, p, q);
    }
    hide LeadsTo;
  }

  /** Removals under way that do not concern `q` can be finished. */
  lemma {:induction false} FinishRemovals<V(!new), R>(m: Semantics<V, R>, s: System<V, R>, q: Hash)
    returns (run: seq<Step<V>>)
    requires q in s.tracker.cache && !BeingRemoved(s.removals, q)
    ensures NoStores(run)
    ensures var t := Steps(m, s, run); SameFor(s, t, q) && t.pending == s.pending && t.removals == map[]
    decreases |s.removals|
  {
    if s.removals == map[] {
      run := [];
    } else {
      var i :| i in s.removals;
      var e: Step<V> := RemoveAffected(i);
      RemovalPasses(m, s, i, q);
      OneStep(m, s, e);
      var s1 := Next(m, s, e);
      assert |s1.removals| < |s.removals| by {
        assert s1.removals.Keys == s.removals.Keys - {i};
        assert |s1.removals| == |s1.removals.Keys| && |s.removals| == |s.removals.Keys|;
      }
      hide Next, Steps, LeadsTo;
      assert !BeingRemoved(s1.removals, q);
      var rest := FinishRemovals(m, s1, q);
      StepsAppend(m, s, [e], rest);
      run := [e] + rest;
    }
  }

  /** An invalidation of accounts none of which leads to `q` passes it by. */
  lemma InvalidationPasses<V(!new), R>(m: Semantics<V, R>, s: System<V, R>, ps: set<Pubkey>, q: Hash)
    requires q in s.tracker.cache && s.removals == map[] && forall p <- ps :: !LeadsTo(s, p, q)
    ensures var run: seq<Step<V>> := [ReadAffected(0, ps), RemoveAffected(0)]; var t := Steps(m, s, run);
      NoStores(run) && SameFor(s, t, q) && t.pending == s.pending - ps && t.removals == map[]
  {
    var e, f: Step<V> := ReadAffected(0, ps), RemoveAffected(0);
    OneStep(m, s, e);
    StepsSnoc(m, s, [e], f);
    assert [e] + [f] == [e, f];
    var s1 := Next(m, s, e);
    assert q !in s1.removals[0];
    assert SameFor(s, s1, q) && s1.pending == s.pending - ps && s1.removals.Keys == {0};
    hide Next, Steps, LeadsTo;
    RemovalPasses(m, s1, 0, q);
    assert s1.removals - {0} == map[];
  }

  /** A result that is not on its way out can be left at rest as it is. */
  lemma ComesToRest<V(!new), R>(m: Semantics<V, R>, s: System<V, R>, q: Hash) returns (run: seq<Step<V>>)
    requires q in s.tracker.cache && !Caught(s, q)
    ensures NoStores(run)
    ensures var t := Steps(m, s, run); SameFor(s, t, q) && t.pending == {} && t.removals == map[]
  {
    var first := FinishRemovals(m, s, q);
    var s1 := Steps(m, s, first);
    InvalidationPasses(m, s1, s.pending, q);
    var second: seq<Step<V>> := [ReadAffected(0, s.pending), RemoveAffected(0)];
    StepsAppend(m, s, first, second);
    run := first + second;
    hide Steps, LeadsTo;
    assert s.pending - s.pending == {};
  }

  function With<V>(w: map<Pubkey, V>, p: Pubkey, value: Option<V>): map<Pubkey, V> {
    if value.Some? then w[p := value.value] else w - {p}
  }

  ghost predicate Matters<V(!new), R>(m: Semantics<V, R>, q: Hash, w: map<Pubkey, V>, p: Pubkey) {
    exists value: Option<V> :: m.eval(q, With(w, p, value)) != m.eval(q, w)
  }

  /** Each dependency of a query has some change that shows in the answer. */
  ghost predicate EveryDependencyMatters<V(!new), R>(m: Semantics<V, R>) {
    forall q, w: map<Pubkey, V>, p :: p in m.deps(q, w) ==> Matters(m, q, w, p)
  }

  /** A change of an account that does not lead to `q` is invalidated without it. */
  lemma UnseenChange<V(!new), R>(m: Semantics<V, R>, s: System<V, R>, p: Pubkey, value: Option<V>, q: Hash)
    requires q in s.tracker.cache && s.pending == {} && s.removals == map[] && !LeadsTo(s, p, q)
    requires s.tracker.cache[q] != m.eval(q, With(s.accounts, p, value))
    ensures var run: seq<Step<V>> := [Change(p, value), ReadAffected(0, {p}), RemoveAffected(0)];
      NoStores(run) && StaleAtRest(m, Steps(m, s, run), q)
  {
    var e: Step<V> := Change(p, value);
    var rest: seq<Step<V>> := [ReadAffected(0, {p}), RemoveAffected(0)];
    OneStep(m, s, e);
    var s1 := Next(m, s, e);
    assert s1.accounts == With(s.accounts, p, value) && s1.pending == {p} && s1.tracker == s.tracker;
    StepsAppend(m, s, [e], rest);
    assert [e] + rest == [Change(p, value), ReadAffected(0, {p}), RemoveAffected(0)];
    InvalidationPasses(m, s1, {p}, q);
    hide Steps, Next;
    assert {p} - {p} == {};
  }

  lemma UncaughtGoesStale<V(!new), R>(m: Semantics<V, R>, s: System<V, R>, q: Hash)
    requires EveryDependencyMatters(m) && q in s.tracker.cache && !Caught(s, q) && !Current(m, s, q)
    ensures !StaysFresh(m, s, q)
  {
    var more := ComesToRest(m, s, q);
    var t := Steps(m, s, more);
    hide Steps, LeadsTo, Undisturbed;
    if t.tracker.cache[q] == m.eval(q, t.accounts) {
      var p :| p in m.deps(q, t.accounts) && !LeadsTo(t, p, q);
      assert Matters(m, q, t.accounts, p);
      var value: Option<V> :| m.eval(q, With(t.accounts, p, value)) != m.eval(q, t.accounts);
      UnseenChange(m, t, p, value, q);
      var last: seq<Step<V>> := [Change(p, value), ReadAffected(0, {p}), RemoveAffected(0)];
      StepsAppend(m, s, more, last);
      more := more + last;
    }
    NoStoresIsUndisturbed(m, s, more, q);
    assert Undisturbed(m, s, more, q) && StaleAtRest(m, Steps(m, s, more), q);
  }

  /** From any state whatever, a cached result that is caught or current stays fresh, and where every dependency
      matters no other does. */
  lemma StaysFreshExactly<V(!new), R>(m: Semantics<V, R>, s: System<V, R>, q: Hash)
    requires DependsOnly(m)
    ensures CaughtOrCurrent(m, s, q) ==> StaysFresh(m, s, q)
    ensures EveryDependencyMatters(m) ==> (StaysFresh(m, s, q) <==> CaughtOrCurrent(m, s, q))
  {
    if CaughtOrCurrent(m, s, q) {
      forall more: seq<Step<V>> | Undisturbed(m, s, more, q) ensures !StaleAtRest(m, Steps(m, s, more), q) {
        RunKeeps(m, s, more, q);
      }
    } else if EveryDependencyMatters(m) {
      UncaughtGoesStale(m, s, q);
    }
  }

  /** A result stored in time, or kept by a run of such stores, meets the condition. */
  lemma StoredOkIsCaughtOrCurrent<V(!new), R>(m: Semantics<V, R>, s: System<V, R>, q: Hash)
    requires Coherent(m, s)
    ensures CaughtOrCurrent(m, s, q)
  {
    if q in s.tracker.cache {
      var x := s.stored[q];
      assert StoredOk(m, s, q, x);
      if x.changed != {} && !BeingRemoved(s.removals, q) {
        var p :| p in x.changed * s.pending;
        assert p in s.pending && LeadsTo(s, p, q);
      }
    }
  }

  // ---------------------------------------------------------------- answers that a new account can join

  /** Evaluated, registered, stored in time, and only then changed. */
  function Joining<V>(q: Hash, p: Pubkey, value: Option<V>): seq<Step<V>> {
    [Evaluate(0, q), RegisterFirst(0), RegisterSecond(0), StoreResult(0),
     Change(p, value), ReadAffected(0, {p}), RemoveAffected(0)]
  }

  lemma {:induction false} NoStoresInTime<V, R>(m: Semantics<V, R>, s: System<V, R>, a: seq<Step<V>>, b: seq<Step<V>>)
    requires InTime(m, s, a) && NoStores(b)
    ensures InTime(m, s, a + b)
  {
    if b == [] {
      assert a + b == a;
    } else {
      assert b[|b| - 1] in b && forall e <- b[..|b| - 1] :: e in b;
      NoStoresInTime(m, s, a, b[..|b| - 1]);
      assert (a + b)[..|a + b| - 1] == a + b[..|b| - 1];
    }
  }

  lemma RegistersInThree<V(!new), R>(m: Semantics<V, R>, s: System<V, R>, q: Hash)
    ensures var run: seq<Step<V>> := [Evaluate(0, q), RegisterFirst(0), RegisterSecond(0)];
      && InTime(m, s, run)
      && Steps(m, s, run) == Next(m, Next(m, Next(m, s, Evaluate(0, q)), RegisterFirst(0)), RegisterSecond(0))
  {
    hide Next;
    var a, b, c: Step<V> := Evaluate(0, q), RegisterFirst(0), RegisterSecond(0);
    OneStep(m, s, a);
    StepsSnoc(m, s, [a], b);
    StepsSnoc(m, s, [a, b], c);
    assert [a] + [b] == [a, b] && [a, b] + [c] == [a, b, c];
    var none: seq<Step<V>> := [];
    assert InTime(m, s, none);
    NoStoresInTime(m, s, none, [a, b, c]);
    assert none + [a, b, c] == [a, b, c];
  }

  lemma RegisteringLeads<V(!new), R>(m: Semantics<V, R>, accounts: map<Pubkey, V>, q: Hash, p: Pubkey)
    requires p !in m.deps(q, accounts)
    ensures var t := Apply(Register(Start<V, R>(accounts).tracker, q, m.deps(q, accounts)), Store(q, m.eval(q, accounts)));
      q in t.cache && t.cache[q] == m.eval(q, accounts) && q !in QueriesOf(t.pubkeyQueries, p)
  {
  }

  lemma OwnStepsTouchNothing<V(!new), R>(m: Semantics<V, R>, s: System<V, R>, e: Step<V>)
    requires e.Evaluate? || e.RegisterFirst? || e.RegisterSecond? || e.StoreResult?
    ensures var t := Next(m, s, e); t.accounts == s.accounts && t.pending == s.pending && t.removals == s.removals
  {
    hide Apply;
  }

  /** The state after storing, in time, the first result of `q`. */
  lemma FirstStored<V(!new), R>(m: Semantics<V, R>, accounts: map<Pubkey, V>, q: Hash, p: Pubkey)
    requires p !in m.deps(q, accounts)
    ensures var run: seq<Step<V>> := [Evaluate(0, q), RegisterFirst(0), RegisterSecond(0), StoreResult(0)];
      var s := Steps(m, Start(accounts), run);
      && InTime(m, Start(accounts), run) && s.accounts == accounts && s.pending == {} && s.removals == map[]
      && q in s.tracker.cache && s.tracker.cache[q] == m.eval(q, accounts) && !LeadsTo(s, p, q)
  {
    var s0 := Start<V, R>(accounts);
    var run: seq<Step<V>> := [Evaluate(0, q), RegisterFirst(0), RegisterSecond(0)];
    var last: Step<V> := StoreResult(0);
    RegistersInThree(m, s0, q);
    UninterruptedIsInTime(m, s0, 0, q);
    RegisteringLeads(m, accounts, q, p);
    StepsSnoc(m, s0, run, last);
    assert run + [last] == [Evaluate(0, q), RegisterFirst(0), RegisterSecond(0), StoreResult(0)];
    assert (run + [last])[..3] == run;
    hide Next, Steps, Apply, QueriesOf;
    var s1 := Next(m, s0, Evaluate(0, q));
    OwnStepsTouchNothing(m, s0, Evaluate(0, q));
    OwnStepsTouchNothing(m, s1, RegisterFirst(0));
    OwnStepsTouchNothing(m, Next(m, s1, RegisterFirst(0)), RegisterSecond(0));
    OwnStepsTouchNothing(m, Steps(m, s0, run), last);
  }

  /** Where an account outside the dependencies can change the answer, as a new account of a program does, doing so
      leaves a result stored in time stale at rest. */
  lemma OutsiderGoesStale<V(!new), R>(
    m: Semantics<V, R>, accounts: map<Pubkey, V>, q: Hash, p: Pubkey, value: Option<V>)
    requires p !in m.deps(q, accounts) && m.eval(q, With(accounts, p, value)) != m.eval(q, accounts)
    ensures InTime(m, Start(accounts), Joining(q, p, value))
    ensures StaleAtRest(m, Steps(m, Start(accounts), Joining(q, p, value)), q)
  {
    var first: seq<Step<V>> := [Evaluate(0, q), RegisterFirst(0), RegisterSecond(0), StoreResult(0)];
    var last: seq<Step<V>> := [Change(p, value), ReadAffected(0, {p}), RemoveAffected(0)];
    FirstStored(m, accounts, q, p);
    UnseenChange(m, Steps(m, Start(accounts), first), p, value, q);
    StepsAppend(m, Start(accounts), first, last);
    NoStoresInTime(m, Start(accounts), first, last);
    assert first + last == Joining(q, p, value);
  }
}
