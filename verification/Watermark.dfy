/** A shared slot number raised by a compare-and-swap loop, with any number of threads. */
module Watermark {
  import opened Bytes

  /** One completed call, as it would appear if calls ran one at a time. */
  datatype Call = Updated(value: u64, won: bool) | Advanced(previous: u64)

  /** `at` and `seen` count the calls that had taken effect when the thread started and last loaded. */
  datatype Thread =
    | Idle
    | Trying(value: u64, at: nat)
    | Loaded(value: u64, current: u64, at: nat, seen: nat)
    | Returned(value: u64, won: bool, at: nat, effect: nat)

  /** `begun` holds the values of all updates ever started. */
  datatype State = State(watermark: u64, threads: map<nat, Thread>, history: seq<Call>, begun: set<u64>)

  datatype Action = Begin(t: nat, value: u64) | Load(t: nat) | Swap(t: nat) | Advance

  function ThreadOf(s: State, t: nat): Thread {
    if t in s.threads then s.threads[t] else Idle
  }

  /** `fetch_add(1)` on 64 bits. */
  function Successor(x: u64): u64 {
    (x + 1) % U64_RANGE
  }

  /** One atomic memory access; an action its thread is not ready for does nothing. */
  function Apply(s: State, a: Action): State {
    match a
    case Begin(t, value) =>
      if ThreadOf(s, t).Trying? || ThreadOf(s, t).Loaded? then s
      else s.(threads := s.threads[t := Trying(value, |s.history|)], begun := s.begun + {value})
    case Load(t) =>
      var th := ThreadOf(s, t);
      if !th.Trying? then s
      else if th.value <= s.watermark then
        s.(threads := s.threads[t := Returned(th.value, false, th.at, |s.history|)],
           history := s.history + [Updated(th.value, false)])
      else s.(threads := s.threads[t := Loaded(th.value, s.watermark, th.at, |s.history|)])
    case Swap(t) =>
      var th := ThreadOf(s, t);
      if !th.Loaded? then s
      else if s.watermark == th.current then
        State(th.value, s.threads[t := Returned(th.value, true, th.at, |s.history|)],
              s.history + [Updated(th.value, true)], s.begun)
      else s.(threads := s.threads[t := Trying(th.value, th.at)])
    case Advance =>
      s.(watermark := Successor(s.watermark), history := s.history + [Advanced(s.watermark)])
  }

  function Exec(initial: u64, run: seq<Action>): State {
    if run == [] then State(initial, map[], [], {}) else Apply(Exec(initial, run[..|run| - 1]), run[|run| - 1])
  }

  // ---------------------------------------------------------------- one call at a time

  function Max(x: u64, y: u64): u64 {
    if x < y then y else x
  }

  /** What a call leaves behind when it runs alone on `x`, and whether that is the result it returned. */
  function After(x: u64, c: Call): u64 {
    if c.Updated? then Max(x, c.value) else Successor(x)
  }

  predicate Answers(x: u64, c: Call) {
    if c.Updated? then c.won == (c.value > x) else c.previous == x
  }

  function Value(initial: u64, calls: seq<Call>): u64 {
    if calls == [] then initial else After(Value(initial, calls[..|calls| - 1]), calls[|calls| - 1])
  }

  /** Every call returned what it would have returned running alone in this order. */
  predicate Legal(initial: u64, calls: seq<Call>) {
    if calls == [] then true
    else
      var front := calls[..|calls| - 1];
      Legal(initial, front) && Answers(Value(initial, front), calls[|calls| - 1])
  }

  lemma Snoc(initial: u64, calls: seq<Call>, c: Call)
    ensures Value(initial, calls + [c]) == After(Value(initial, calls), c)
    ensures Legal(initial, calls + [c]) <==> Legal(initial, calls) && Answers(Value(initial, calls), c)
  {
    assert (calls + [c])[..|calls|] == calls;
  }

  // ---------------------------------------------------------------- the invariant

  ghost predicate ThreadInv(initial: u64, history: seq<Call>, th: Thread) {
    match th
    case Idle => true
    case Trying(_, at) => at <= |history|
    case Loaded(v, current, at, seen) =>
      at <= seen <= |history| && current == Value(initial, history[..seen]) && v > current
    case Returned(v, won, at, effect) =>
      at <= effect < |history| && history[effect] == Updated(v, won)
  }

  ghost predicate Inv(initial: u64, s: State) {
    && Legal(initial, s.history) && s.watermark == Value(initial, s.history)
    && forall t <- s.threads :: ThreadInv(initial, s.history, s.threads[t])
  }

  /** No two finished calls stand for the same entry of the history. */
  predicate OwnEffects(threads: map<nat, Thread>) {
    forall t <- threads, u <- threads :: t != u && threads[t].Returned? && threads[u].Returned? ==>
      threads[t].effect != threads[u].effect
  }

  lemma ThreadInvGrows(initial: u64, history: seq<Call>, c: Call, th: Thread)
    requires ThreadInv(initial, history, th)
    ensures ThreadInv(initial, history + [c], th)
  {
    if th.Loaded? {
      assert (history + [c])[..th.seen] == history[..th.seen];
    }
  }

  lemma ApplyKeeps(initial: u64, s: State, a: Action)
    requires Inv(initial, s)
    ensures Inv(initial, Apply(s, a))
  {
    var s' := Apply(s, a);
    assert a.Swap? || a.Load? ==> ThreadInv(initial, s.history, ThreadOf(s, a.t));
    if |s'.history| > |s.history| {
      var c := s'.history[|s.history|];
      assert s'.history == s.history + [c];
      Snoc(initial, s.history, c);
      hide Value, Legal;
      forall t | t in s.threads ensures ThreadInv(initial, s'.history, s.threads[t]) {
        ThreadInvGrows(initial, s.history, c, s.threads[t]);
      }
      if !a.Advance? {
        assert ThreadInv(initial, s'.history, s'.threads[a.t]);
      }
    } else {
      assert s.history[..|s.history|] == s.history;
      hide Value, Legal;
    }
  }

  lemma {:induction false} RunInv(initial: u64, run: seq<Action>)
    ensures Inv(initial, Exec(initial, run))
  {
    if run != [] {
      RunInv(initial, run[..|run| - 1]);
      ApplyKeeps(initial, Exec(initial, run[..|run| - 1]), run[|run| - 1]);
    }
  }

  lemma {:induction false} EffectsAreOwn(initial: u64, run: seq<Action>)
    ensures OwnEffects(Exec(initial, run).threads)
  {
    if run != [] {
      var front, a := run[..|run| - 1], run[|run| - 1];
      EffectsAreOwn(initial, front);
      RunInv(initial, front);
      var s := Exec(initial, front);
      assert forall t <- s.threads :: ThreadInv(initial, s.history, s.threads[t]);
      OwnEffectStep(s, a);
    }
  }

  lemma OwnEffectStep(s: State, a: Action)
    requires OwnEffects(s.threads)
    requires forall t <- s.threads :: s.threads[t].Returned? ==> s.threads[t].effect < |s.history|
    ensures OwnEffects(Apply(s, a).threads)
  {
  }

  // ---------------------------------------------------------------- main results

  /** However the accesses interleave, the finished calls took effect one at a time, each in a
      history entry of its own between its start and its return. */
  lemma CallsAreAtomic(initial: u64, run: seq<Action>)
    ensures var s := Exec(initial, run);
      && Legal(initial, s.history) && s.watermark == Value(initial, s.history)
      && forall t <- s.threads :: s.threads[t].Returned? ==>
           var r := s.threads[t];
           r.at <= r.effect < |s.history| && s.history[r.effect] == Updated(r.value, r.won)
    ensures OwnEffects(Exec(initial, run).threads)
  {
    RunInv(initial, run);
    EffectsAreOwn(initial, run);
    var s := Exec(initial, run);
    assert forall t <- s.threads :: ThreadInv(initial, s.history, s.threads[t]);
  }

  /** An advance raises the watermark by one, from the largest 64-bit value to zero, and every other step leaves it
      or sets it to a value offered. */
  lemma StepsByOne(s: State, a: Action)
    ensures var t := Apply(s, a);
      if a.Advance? then
        && t.watermark == (if s.watermark == 0xFFFF_FFFF_FFFF_FFFF then 0 else s.watermark + 1)
        && t.history == s.history + [Advanced(s.watermark)]
      else
        t.watermark == s.watermark || (a.Swap? && ThreadOf(s, a.t).Loaded? && t.watermark == ThreadOf(s, a.t).value)
  {
    if s.watermark < 0xFFFF_FFFF_FFFF_FFFF {
      assert (s.watermark + 1) % U64_RANGE == s.watermark + 1;
    }
  }

  /** A step lowers the watermark exactly when it advances past the largest slot number. */
  lemma FallsOnlyByWrapping(initial: u64, run: seq<Action>, a: Action)
    ensures var s := Exec(initial, run);
      Apply(s, a).watermark < s.watermark <==> a == Advance && s.watermark == U64_RANGE - 1
  {
    RunInv(initial, run);
    if a.Swap? && a.t in Exec(initial, run).threads {
      assert ThreadInv(initial, Exec(initial, run).history, Exec(initial, run).threads[a.t]);
    }
  }

  /** `x` is the largest of the starting value and the values offered by updates. */
  predicate IsLargest(initial: u64, calls: seq<Call>, x: u64) {
    && initial <= x && (forall c <- calls :: c.Updated? ==> c.value <= x)
    && (x == initial || exists c <- calls :: c.Updated? && c.value == x)
  }

  predicate NoAdvance(calls: seq<Call>) {
    forall c <- calls :: c.Updated?
  }

  lemma {:induction false} ValueIsLargest(initial: u64, calls: seq<Call>)
    requires NoAdvance(calls)
    ensures IsLargest(initial, calls, Value(initial, calls))
  {
    if calls != [] {
      var front, last := calls[..|calls| - 1], calls[|calls| - 1];
      assert last in calls;
      assert forall c <- front :: c in calls;
      ValueIsLargest(initial, front);
      var v := Value(initial, front);
      if v != initial {
        var c :| c in front && c.Updated? && c.value == v;
        assert c in calls;
      }
      assert forall c <- calls :: c in front || c == last;
    }
  }

  predicate InFlight(th: Thread) {
    th.Trying? || th.Loaded?
  }

  predicate TookEffect(calls: seq<Call>, v: u64) {
    exists c <- calls :: c.Updated? && c.value == v
  }

  predicate UnderWay(threads: map<nat, Thread>, v: u64) {
    exists t <- threads :: InFlight(threads[t]) && threads[t].value == v
  }

  /** Every update begun is under way or has taken effect, and only those. */
  ghost predicate Accounted(s: State) {
    forall v: u64 :: v in s.begun <==> TookEffect(s.history, v) || UnderWay(s.threads, v)
  }

  lemma TookEffectSnoc(calls: seq<Call>, c: Call, v: u64)
    ensures TookEffect(calls + [c], v) <==> TookEffect(calls, v) || (c.Updated? && c.value == v)
  {
    assert forall d <- calls :: d in calls + [c];
    assert c in calls + [c];
  }

  lemma UnderWaySet(threads: map<nat, Thread>, t: nat, th: Thread, v: u64)
    requires t in threads ==> !InFlight(threads[t]) || (InFlight(th) && th.value == threads[t].value)
    ensures UnderWay(threads[t := th], v) <==> UnderWay(threads, v) || (InFlight(th) && th.value == v)
  {
    var after := threads[t := th];
    if UnderWay(threads, v) {
      var x :| x in threads && InFlight(threads[x]) && threads[x].value == v;
      assert x in after && InFlight(after[x]) && after[x].value == v;
    }
    if InFlight(th) && th.value == v {
      assert t in after && InFlight(after[t]);
    }
  }

  lemma UnderWayEnds(threads: map<nat, Thread>, t: nat, th: Thread, v: u64)
    requires t in threads && InFlight(threads[t]) && !InFlight(th)
    ensures UnderWay(threads, v) <==> UnderWay(threads[t := th], v) || threads[t].value == v
  {
    var after := threads[t := th];
    if UnderWay(after, v) {
      var x :| x in after && InFlight(after[x]) && after[x].value == v;
      assert x in threads && InFlight(threads[x]);
    }
    if UnderWay(threads, v) && threads[t].value != v {
      var x :| x in threads && InFlight(threads[x]) && threads[x].value == v;
      assert x in after && InFlight(after[x]);
    }
  }

  lemma ApplyKeepsAccounted(s: State, a: Action)
    requires Accounted(s)
    ensures Accounted(Apply(s, a))
  {
    var s' := Apply(s, a);
    if !a.Advance? && InFlight(ThreadOf(s, a.t)) {
      assert UnderWay(s.threads, s.threads[a.t].value);
    }
    hide TookEffect, UnderWay;
    forall v: u64 ensures v in s'.begun <==> TookEffect(s'.history, v) || UnderWay(s'.threads, v) {
      assert v in s.begun <==> TookEffect(s.history, v) || UnderWay(s.threads, v);
      if a.Advance? {
        TookEffectSnoc(s.history, Advanced(s.watermark), v);
      } else if |s'.history| > |s.history| {
        var c := s'.history[|s.history|];
        assert s'.history == s.history + [c];
        TookEffectSnoc(s.history, c, v);
        var th := s'.threads[a.t];
        assert s'.threads == s.threads[a.t := th];
        UnderWayEnds(s.threads, a.t, th, v);
      } else if s' != s {
        var th := s'.threads[a.t];
        assert s'.threads == s.threads[a.t := th];
        UnderWaySet(s.threads, a.t, th, v);
      }
    }
  }

  lemma {:induction false} RunAccounted(initial: u64, run: seq<Action>)
    ensures Accounted(Exec(initial, run))
  {
    if run != [] {
      RunAccounted(initial, run[..|run| - 1]);
      ApplyKeepsAccounted(Exec(initial, run[..|run| - 1]), run[|run| - 1]);
    }
  }

  /** Without `advance`, the watermark is the largest of the starting value and the values whose update
      has taken effect; with every thread at rest, those are all values ever offered. */
  lemma RestsAtLargest(initial: u64, run: seq<Action>)
    requires NoAdvance(Exec(initial, run).history)
    ensures var s := Exec(initial, run);
      && IsLargest(initial, s.history, s.watermark)
      && ((forall t <- s.threads :: !InFlight(s.threads[t])) ==>
            && (forall v <- s.begun :: v <= s.watermark)
            && (s.watermark == initial || s.watermark in s.begun))
  {
    RunInv(initial, run);
    RunAccounted(initial, run);
    var s := Exec(initial, run);
    ValueIsLargest(initial, s.history);
    if forall t <- s.threads :: !InFlight(s.threads[t]) {
      forall v | v in s.begun ensures v <= s.watermark {
        assert TookEffect(s.history, v);
      }
      if s.watermark != initial {
        assert TookEffect(s.history, s.watermark);
      }
    }
  }

  predicate Effective(c: Call) {
    c.Advanced? || c.won
  }

  lemma {:induction false} UnchangedWithoutEffect(initial: u64, calls: seq<Call>, n: nat)
    requires n <= |calls| && Legal(initial, calls)
    requires forall i :: n <= i < |calls| ==> !Effective(calls[i])
    ensures Value(initial, calls) == Value(initial, calls[..n])
  {
    if n == |calls| {
      assert calls[..n] == calls;
    } else {
      var front := calls[..|calls| - 1];
      UnchangedWithoutEffect(initial, front, n);
      assert front[..n] == calls[..n];
      assert !Effective(calls[|calls| - 1]);
    }
  }

  /** A swap fails only because another call changed the watermark after this thread loaded it. */
  lemma RetriesOnlyAfterOthersSucceed(initial: u64, run: seq<Action>, t: nat)
    requires ThreadOf(Exec(initial, run), t).Loaded?
    requires ThreadOf(Apply(Exec(initial, run), Swap(t)), t).Trying?
    ensures var s := Exec(initial, run);
      exists i :: ThreadOf(s, t).seen <= i < |s.history| && Effective(s.history[i])
  {
    RunInv(initial, run);
    var s := Exec(initial, run);
    var th := s.threads[t];
    assert ThreadInv(initial, s.history, th);
    if forall i :: th.seen <= i < |s.history| ==> !Effective(s.history[i]) {
      UnchangedWithoutEffect(initial, s.history, th.seen);
      assert false;
    }
  }

  // ---------------------------------------------------------------- the object, used by one thread

  class WatermarkTracker {
    var watermark: u64

    constructor (initial: u64)
      ensures watermark == initial
    {
      watermark := initial;
    }

    method CompareExchange(current: u64, value: u64) returns (ok: bool)
      modifies this
      ensures ok <==> old(watermark) == current
      ensures watermark == if ok then value else old(watermark)
    {
      ok := watermark == current;
      if ok {
        watermark := value;
      }
    }

    method Update(value: u64) returns (won: bool)
      modifies this
      ensures won <==> value > old(watermark)
      ensures watermark == if value > old(watermark) then value else old(watermark)
    {
      won := false;
      while !won
        invariant !won ==> watermark == old(watermark)
        invariant won ==> watermark == value && value > old(watermark)
        decreases !won
      {
        var current := watermark;
        if value <= current {
          return false;
        }
        won := CompareExchange(current, value);
      }
    }

    method AdvanceOne() returns (previous: u64)
      modifies this
      ensures previous == old(watermark)
      ensures watermark == if old(watermark) == 0xFFFF_FFFF_FFFF_FFFF then 0 else old(watermark) + 1
    {
      previous := watermark;
      watermark := Successor(watermark);
    }
  }
}
