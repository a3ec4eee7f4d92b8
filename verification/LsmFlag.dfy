/**
 What the compaction flag is worth.  Raising it over a flag already raised is the one step that can cost
 ids: from then on the threads can always go on, raising it only while it is down, so that an id is lost for good.
 */
module LsmFlag {
  import opened LsmBitmap

  /** Outside a compaction's window a query returns what was inserted. */
  predicate Whole(s: State) {
    !InWindow(s) ==> Query(s) == s.inserted
  }

  /** However the threads go on, as long as none raises the flag over a raised one. */
  ghost predicate StaysWhole(cfg: Config, s: State) {
    forall more :: GuardedFrom(cfg, s, more) ==> Whole(Exec(cfg, s, more))
  }

  lemma InvIsWhole(s: State)
    requires Inv(s)
    ensures Whole(s)
  {
    if c :| Active(s, c) {
      assert CompactorInv(s, s.compactors[c]);
    }
  }

  // ---------------------------------------------------------------- continuing a run

  predicate RaisesNoFlag(run: seq<Action>) {
    forall a <- run :: !a.SetFlag?
  }

  lemma {:induction false} NoFlagIsGuarded(cfg: Config, s: State, run: seq<Action>)
    requires RaisesNoFlag(run)
    ensures GuardedFrom(cfg, s, run)
  {
    if run != [] {
      var front := run[..|run| - 1];
      assert run[|run| - 1] in run && forall a <- front :: a in run;
      NoFlagIsGuarded(cfg, s, front);
    }
  }

  lemma {:induction false} GuardedAppend(cfg: Config, s: State, a: seq<Action>, b: seq<Action>)
    requires GuardedFrom(cfg, s, a) && GuardedFrom(cfg, Exec(cfg, s, a), b)
    ensures GuardedFrom(cfg, s, a + b) && Exec(cfg, s, a + b) == Exec(cfg, Exec(cfg, s, a), b)
  {
    hide Exec, Guarded;
    ExecAppend(cfg, s, a, b);
    if b == [] {
      assert a + b == a;
    } else {
      var front := b[..|b| - 1];
      GuardedAppend(cfg, s, a, front);
      assert (a + b)[..|a + b| - 1] == a + front;
    }
  }

  lemma OneStep(cfg: Config, s: State, a: Action)
    ensures Exec(cfg, s, [a]) == Apply(cfg, s, a)
    ensures Guarded(s, a) ==> GuardedFrom(cfg, s, [a])
  {
    ExecSnoc(cfg, s, [], a);
    assert [] + [a] == [a] && [a][..0] == [];
    hide Apply;
  }

  lemma {:induction false} Beyond(s: set<nat>) returns (x: nat)
    ensures forall y <- s :: y < x
  {
    if s == {} {
      x := 0;
    } else {
      var y :| y in s;
      var z := Beyond(s - {y});
      x := if y < z then z else y + 1;
      assert forall w <- s :: w == y || w in s - {y};
    }
  }

  // ---------------------------------------------------------------- finishing a compaction

  function NextStep(c: nat, th: Compactor): Action {
    match th
    case Spawned => CloneBase(c)
    case Cloned(_) => MergeDeltas(c)
    case Merged(_) => SwapBase(c)
    case Swapped => ResetCounter(c)
    case _ => ClearFlag(c)
  }

  function StepsLeft(th: Compactor): nat {
    match th
    case Spawned => 5
    case Cloned(_) => 4
    case Merged(_) => 3
    case Swapped => 2
    case CounterReset => 1
    case Done => 0
  }

  /** What a compaction left to itself from state `s` on does to the bitmap. */
  predicate Finished(s: State, t: State, c: nat)
    requires c in s.compactors
  {
    && t.compactors == s.compactors[c := Done] && !t.inProgress
    && t.inserters == s.inserters && t.inserted == s.inserted
    && match s.compactors[c]
       case Spawned => t.deltas == [{}] && t.base == s.base + Union(s.deltas)
       case Cloned(newBase) => t.deltas == [{}] && t.base == newBase + Union(s.deltas)
       case Merged(newBase) => t.deltas == s.deltas && t.base == newBase
       case _ => t.deltas == s.deltas && t.base == s.base
  }

  lemma FinishedAfterStep(cfg: Config, s: State, t: State, c: nat)
    requires c in s.compactors && StepsLeft(s.compactors[c]) > 1
    ensures var s1 := Apply(cfg, s, NextStep(c, s.compactors[c]));
      && c in s1.compactors && StepsLeft(s1.compactors[c]) == StepsLeft(s.compactors[c]) - 1
      && (Finished(s1, t, c) ==> Finished(s, t, c))
  {
    var s1 := Apply(cfg, s, NextStep(c, s.compactors[c]));
    assert s.compactors[c := s1.compactors[c]][c := Done] == s.compactors[c := Done];
    assert s1.compactors == s.compactors[c := s1.compactors[c]];
  }

  lemma {:induction false} Finishes(cfg: Config, s: State, c: nat) returns (run: seq<Action>)
    requires Active(s, c)
    ensures RaisesNoFlag(run) && Finished(s, Exec(cfg, s, run), c)
    decreases StepsLeft(s.compactors[c])
  {
    var a := NextStep(c, s.compactors[c]);
    OneStep(cfg, s, a);
    run := [a];
    if StepsLeft(s.compactors[c]) > 1 {
      var s1 := Apply(cfg, s, a);
      FinishedAfterStep(cfg, s, s1, c);
      var rest := Finishes(cfg, s1, c);
      FinishedAfterStep(cfg, s, Exec(cfg, s1, rest), c);
      ExecAppend(cfg, s, [a], rest);
      run := [a] + rest;
    }
  }

  // ---------------------------------------------------------------- deciding to compact

  /** One insert of thread `t`, up to its look at the flag. */
  lemma InsertsAndLooks(cfg: Config, s: State, t: nat)
    requires InserterOf(s, t).Idle? && !s.inProgress && s.deltas != []
    ensures var s1, s2 := Apply(cfg, s, Insert(t, 0)), Exec(cfg, s, DecideRun(t, 0));
      && s1.counter == s.counter + 1 && s1.deltas != []
      && s2 == s1.(inserters := s1.inserters[t := if Due(cfg, s1) then Decided else Idle])
      && !s2.inProgress && s2.compactors == s.compactors
  {
    hide Due;
    DecideSteps(cfg, s, t, 0);
    CheckDecides(cfg, Apply(cfg, s, Insert(t, 0)), t);
  }

  /** While the flag is down a thread that keeps inserting decides to compact sooner or later. */
  lemma {:induction false} DecidesAtLast(cfg: Config, s: State, t: nat) returns (run: seq<Action>)
    requires InserterOf(s, t).Idle? && !s.inProgress && s.deltas != []
    ensures RaisesNoFlag(run)
    ensures var s' := Exec(cfg, s, run);
      && InserterOf(s', t).Decided? && !s'.inProgress && s'.deltas != [] && s'.compactors == s.compactors
    decreases if s.counter < COUNTER_LIMIT then COUNTER_LIMIT - s.counter else 0
  {
    run := DecideRun(t, 0);
    InsertsAndLooks(cfg, s, t);
    var s1, s2 := Apply(cfg, s, Insert(t, 0)), Exec(cfg, s, run);
    hide Exec, Apply;
    if !Due(cfg, s1) {
      var rest := DecidesAtLast(cfg, s2, t);
      ExecAppend(cfg, s, run, rest);
      run := run + rest;
    }
  }

  // ---------------------------------------------------------------- two compactions at once

  predicate AllDoneBut(s: State, cs: set<nat>) {
    forall c <- s.compactors :: c in cs || s.compactors[c].Done?
  }

  lemma DoneIsNoWindow(s: State)
    requires AllDoneBut(s, {})
    ensures !InWindow(s)
  {
  }

  /** Two compactions that both clone the base: what the first one drains, the second one drops. */
  lemma OverwritesBase(cfg: Config, s: State, t: nat, d: nat, e: nat) returns (run: seq<Action>)
    requires d != e && d in s.compactors && s.compactors[d].Spawned? && e in s.compactors && s.compactors[e].Spawned?
    requires AllDoneBut(s, {d, e}) && InserterOf(s, t).Idle? && s.deltas != []
    ensures RaisesNoFlag(run) && !Whole(Exec(cfg, s, run))
  {
    var x := Beyond(s.base);
    var s1 := Apply(cfg, s, CloneBase(e));
    var s2 := Apply(cfg, s1, Insert(t, x));
    assert s2.compactors == s.compactors[e := Cloned(s.base)] && x in s2.inserted;
    ExecTwo(cfg, s, CloneBase(e), Insert(t, x));
    var first := [CloneBase(e), Insert(t, x)];
    hide Exec, Apply;
    var second := Finishes(cfg, s2, d);
    var s3 := Exec(cfg, s2, second);
    var third := Finishes(cfg, s3, e);
    var s4 := Exec(cfg, s3, third);
    UnionOfOne({});
    assert s4.base == s.base && s4.deltas == [{}] && x in s4.inserted;
    assert AllDoneBut(s4, {});
    DoneIsNoWindow(s4);
    ExecAppend(cfg, s, first, second);
    ExecAppend(cfg, s, first + second, third);
    run := first + second + third;
  }

  lemma Spawns(cfg: Config, s: State, t: nat) returns (c: nat)
    requires InserterOf(s, t).FlagSet?
    ensures c !in s.compactors
    ensures Apply(cfg, s, Spawn(t, c)) == s.(inserters := s.inserters[t := Idle], compactors := s.compactors[c := Spawned])
  {
    c := Beyond(s.compactors.Keys);
  }

  /** A flag that is down while a compaction is still to come lets a second one start. */
  lemma SecondStarts(cfg: Config, s: State, t: nat, d: nat) returns (run: seq<Action>)
    requires d in s.compactors && s.compactors[d].Spawned? && AllDoneBut(s, {d})
    requires InserterOf(s, t).Idle? && !s.inProgress && s.deltas != []
    ensures GuardedFrom(cfg, s, run) && !Whole(Exec(cfg, s, run))
  {
    var decide := DecidesAtLast(cfg, s, t);
    NoFlagIsGuarded(cfg, s, decide);
    var s1 := Exec(cfg, s, decide);
    var s2 := Apply(cfg, s1, SetFlag(t));
    OneStep(cfg, s1, SetFlag(t));
    var e := Spawns(cfg, s2, t);
    var s3 := Apply(cfg, s2, Spawn(t, e));
    OneStep(cfg, s2, Spawn(t, e));
    assert s2.compactors == s.compactors && s2.deltas == s1.deltas;
    hide Exec, Apply, Whole, GuardedFrom;
    var last := OverwritesBase(cfg, s3, t, d, e);
    NoFlagIsGuarded(cfg, s3, last);
    GuardedAppend(cfg, s2, [Spawn(t, e)], last);
    GuardedAppend(cfg, s1, [SetFlag(t)], [Spawn(t, e)] + last);
    GuardedAppend(cfg, s, decide, [SetFlag(t)] + ([Spawn(t, e)] + last));
    run := decide + ([SetFlag(t)] + ([Spawn(t, e)] + last));
  }

  /** A lone compaction can be brought to its end, and takes the flag down with it. */
  lemma LoneFinishes(cfg: Config, s: State, t: nat, c: nat) returns (run: seq<Action>)
    requires Active(s, c) && AllDoneBut(s, {c}) && InserterOf(s, t).FlagSet? && s.deltas != []
    ensures RaisesNoFlag(run)
    ensures var s' := Exec(cfg, s, run);
      InserterOf(s', t).FlagSet? && AllDoneBut(s', {}) && !s'.inProgress && s'.deltas != []
  {
    run := Finishes(cfg, s, c);
    hide Exec, RaisesNoFlag;
  }

  lemma StartedFinishes(cfg: Config, s: State, t: nat, u: nat) returns (run: seq<Action>)
    requires AllDoneBut(s, {}) && InserterOf(s, t).FlagSet? && Starting(s, u) && u != t && s.deltas != []
    ensures RaisesNoFlag(run)
    ensures var s' := Exec(cfg, s, run);
      InserterOf(s', t).FlagSet? && AllDoneBut(s', {}) && !s'.inProgress && s'.deltas != []
  {
    var c := Spawns(cfg, s, u);
    var s2 := Apply(cfg, s, Spawn(u, c));
    OneStep(cfg, s, Spawn(u, c));
    hide Exec, Apply;
    var rest := LoneFinishes(cfg, s2, t, c);
    ExecAppend(cfg, s, [Spawn(u, c)], rest);
    run := [Spawn(u, c)] + rest;
  }

  /** What the flag stood for, started or about to be, ends likewise. */
  lemma FirstFinishes(cfg: Config, s: State, t: nat) returns (run: seq<Action>)
    requires Inv(s) && s.inProgress && InserterOf(s, t).Decided?
    ensures RaisesNoFlag(run)
    ensures var s' := Exec(cfg, Apply(cfg, s, SetFlag(t)), run);
      && InserterOf(s', t).FlagSet? && AllDoneBut(s', {}) && !s'.inProgress && s'.deltas != []
  {
    var s1 := Apply(cfg, s, SetFlag(t));
    assert s1.compactors == s.compactors && s1.deltas == s.deltas && s1.inserters == s.inserters[t := FlagSet];
    hide Exec, Apply, RaisesNoFlag, CompactorInv;
    if u :| Starting(s, u) {
      assert u != t && forall c <- s.compactors :: !Active(s, c);
      assert Starting(s1, u);
      run := StartedFinishes(cfg, s1, t, u);
    } else {
      var c :| Active(s, c);
      forall d | d in s1.compactors && d != c ensures s1.compactors[d].Done? {
        assert !Active(s, d);
      }
      run := LoneFinishes(cfg, s1, t, c);
    }
  }

  /** From any good state, raising the flag over a raised one opens a way to lose an id for good. */
  lemma RaisedTwiceLoses(cfg: Config, s: State, t: nat)
    requires Inv(s) && s.inProgress && InserterOf(s, t).Decided?
    ensures !StaysWhole(cfg, Apply(cfg, s, SetFlag(t)))
  {
    var s1 := Apply(cfg, s, SetFlag(t));
    var first := FirstFinishes(cfg, s, t);
    NoFlagIsGuarded(cfg, s1, first);
    var s2 := Exec(cfg, s1, first);
    var d := Spawns(cfg, s2, t);
    var s3 := Apply(cfg, s2, Spawn(t, d));
    OneStep(cfg, s2, Spawn(t, d));
    hide Exec, Apply, Whole, GuardedFrom, Inv;
    var last := SecondStarts(cfg, s3, t, d);
    GuardedAppend(cfg, s2, [Spawn(t, d)], last);
    GuardedAppend(cfg, s1, first, [Spawn(t, d)] + last);
    var more := first + ([Spawn(t, d)] + last);
    assert GuardedFrom(cfg, s1, more) && !Whole(Exec(cfg, s1, more));
  }

  /** So a step from a good state keeps every continuation whole exactly when it does not raise the flag over a
      flag already raised. */
  lemma FlagGuardsExactly(cfg: Config, s: State, a: Action)
    requires Inv(s)
    ensures StaysWhole(cfg, Apply(cfg, s, a)) <==> Guarded(s, a)
  {
    var s1 := Apply(cfg, s, a);
    if Guarded(s, a) {
      if IsInserterStep(a) {
        InserterKeeps(cfg, s, a);
      } else {
        CompactorKeeps(cfg, s, a);
      }
      hide Exec, Apply, Inv, Whole;
      forall more | GuardedFrom(cfg, s1, more) ensures Whole(Exec(cfg, s1, more)) {
        GuardedKeeps(cfg, s1, more);
        InvIsWhole(Exec(cfg, s1, more));
      }
    } else {
      RaisedTwiceLoses(cfg, s, a.t);
    }
  }
}
