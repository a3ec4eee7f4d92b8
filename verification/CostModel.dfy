/** Cardinality statistics, the execution order they suggest, and what it is estimated to cost. */
module CostModel {
  import opened Bytes
  import opened Wrappers
  import opened IndexManager
  import K = KeyedIndex

  /** A planned filter: the mandatory program filter, or one of the request's. */
  datatype FilterType = Program(id: Pubkey) | Of(filter: Filter)

  datatype Statistics = Statistics(
    program: map<Pubkey, nat>, dataSize: map<nat, nat>, memcmp: map<MemKey, nat>, discriminator: map<seq<byte>, nat>,
    lastUpdatedSlot: nat)

  datatype CostWeights = CostWeights(lookup: nat, intersection: nat, memoryAccess: nat)

  const DEFAULT_WEIGHTS := CostWeights(10, 1, 2)

  /** Assumed size of a program the statistics do not know. */
  const UNKNOWN_PROGRAM: nat := 1_000_000

  type Estimate = (FilterType, nat)

  datatype Plan = Plan(order: seq<FilterType>, intermediate: seq<nat>, cost: nat)

  function EstimateFilter(s: Statistics, f: Filter): nat {
    match f
    case DataSize(size) => if size in s.dataSize then s.dataSize[size] else 0
    case Memcmp(offset, bytes) => if MemKey(offset, bytes) in s.memcmp then s.memcmp[MemKey(offset, bytes)] else 0
    case Discriminator(disc) => if disc in s.discriminator then s.discriminator[disc] else 0
  }

  function EstimateProgram(s: Statistics, program: Pubkey): nat {
    if program in s.program then s.program[program] else UNKNOWN_PROGRAM
  }

  function EstimateOf(s: Statistics, t: FilterType): nat {
    match t
    case Program(id) => EstimateProgram(s, id)
    case Of(f) => EstimateFilter(s, f)
  }

  /** The estimates in request order, the program first. */
  function Estimates(s: Statistics, program: Pubkey, filters: seq<Filter>): seq<Estimate> {
    if filters == [] then [(Program(program), EstimateProgram(s, program))]
    else
      var last := filters[|filters| - 1];
      Estimates(s, program, filters[..|filters| - 1]) + [(Of(last), EstimateFilter(s, last))]
  }

  // ---------------------------------------------------------------- stable sort by estimate

  predicate Ascending(es: seq<Estimate>) {
    forall i, j :: 0 <= i < j < |es| ==> es[i].1 <= es[j].1
  }

  /** Where a new element goes: after everything not larger. */
  function Position(es: seq<Estimate>, x: Estimate): (p: nat)
    requires Ascending(es)
    ensures p <= |es|
    ensures (forall i :: 0 <= i < p ==> es[i].1 <= x.1) && (forall i :: p <= i < |es| ==> x.1 < es[i].1)
  {
    if es == [] || x.1 < es[0].1 then 0
    else 1 + Position(es[1..], x)
  }

  /** Stable insertion sort, standing for `sort_by_key`. */
  function Sorted(es: seq<Estimate>): (r: seq<Estimate>)
    ensures Ascending(r) && |r| == |es|
  {
    if es == [] then []
    else
      var rest := Sorted(es[..|es| - 1]);
      var p := Position(rest, es[|es| - 1]);
      rest[..p] + [es[|es| - 1]] + rest[p..]
  }

  lemma InsertPermutes(rest: seq<Estimate>, x: Estimate, p: nat)
    requires p <= |rest|
    ensures multiset(rest[..p] + [x] + rest[p..]) == multiset(rest) + multiset{x}
  {
    assert rest == rest[..p] + rest[p..];
    assert multiset(rest) == multiset(rest[..p]) + multiset(rest[p..]);
  }

  lemma SortedSnoc(es: seq<Estimate>)
    requires es != []
    ensures var rest, x := Sorted(es[..|es| - 1]), es[|es| - 1];
      var p := Position(rest, x);
      Sorted(es) == rest[..p] + [x] + rest[p..]
  {
    hide Position, Ascending;
  }

  lemma {:induction false} SortedPermutes(es: seq<Estimate>)
    ensures multiset(Sorted(es)) == multiset(es)
  {
    hide *;
    if es == [] {
      SortedNil();
    } else {
      var front, x := es[..|es| - 1], es[|es| - 1];
      SortedPermutes(front);
      SortedSnoc(es);
      InsertPermutes(Sorted(front), x, Position(Sorted(front), x));
      assert es == front + [x];
    }
  }

  lemma SortedNil()
    ensures Sorted([]) == []
  {
  }

  lemma SortedElements(es: seq<Estimate>)
    ensures forall e :: e in Sorted(es) <==> e in es
  {
    SortedPermutes(es);
    forall e ensures e in Sorted(es) <==> e in es {
      assert e in Sorted(es) <==> e in multiset(Sorted(es));
      assert e in es <==> e in multiset(es);
    }
  }

  /** The entries with one given estimate keep their relative order. */
  function WithEstimate(es: seq<Estimate>, n: nat): seq<Estimate> {
    if es == [] then []
    else WithEstimate(es[..|es| - 1], n) + if es[|es| - 1].1 == n then [es[|es| - 1]] else []
  }

  lemma {:induction false} WithEstimateConcat(a: seq<Estimate>, b: seq<Estimate>, n: nat)
    ensures WithEstimate(a + b, n) == WithEstimate(a, n) + WithEstimate(b, n)
  {
    if b == [] {
      assert a + b == a;
    } else {
      WithEstimateConcat(a, b[..|b| - 1], n);
      assert (a + b)[..|a + b| - 1] == a + b[..|b| - 1];
    }
  }

  lemma {:induction false} NoneWithEstimate(es: seq<Estimate>, n: nat)
    requires forall e <- es :: e.1 != n
    ensures WithEstimate(es, n) == []
  {
    if es != [] {
      NoneWithEstimate(es[..|es| - 1], n);
    }
  }

  lemma OneEstimate(x: Estimate, n: nat)
    ensures WithEstimate([x], n) == if x.1 == n then [x] else []
  {
    var front: seq<Estimate> := [x][..0];
    assert front == [];
  }

  lemma InsertIsStable(rest: seq<Estimate>, x: Estimate, p: nat, n: nat)
    requires p <= |rest| && forall i :: p <= i < |rest| ==> x.1 < rest[i].1
    ensures WithEstimate(rest[..p] + [x] + rest[p..], n) == WithEstimate(rest, n) + if x.1 == n then [x] else []
  {
    hide WithEstimate;
    WithEstimateConcat(rest[..p], rest[p..], n);
    assert rest == rest[..p] + rest[p..];
    WithEstimateConcat(rest[..p] + [x], rest[p..], n);
    WithEstimateConcat(rest[..p], [x], n);
    OneEstimate(x, n);
    if n == x.1 {
      NoneWithEstimate(rest[p..], n);
    }
  }

  /** Sorting keeps the order of equal estimates. */
  lemma {:induction false} SortedIsStable(es: seq<Estimate>, n: nat)
    ensures WithEstimate(Sorted(es), n) == WithEstimate(es, n)
  {
    if es != [] {
      var front, x := es[..|es| - 1], es[|es| - 1];
      SortedIsStable(front, n);
      InsertIsStable(Sorted(front), x, Position(Sorted(front), x), n);
    }
  }

  // ---------------------------------------------------------------- cost

  /** The smallest of the first `n` estimates. */
  function RunningMin(es: seq<Estimate>, n: nat): nat
    requires 0 < n <= |es|
  {
    if n == 1 then es[0].1
    else
      var m := RunningMin(es, n - 1);
      if es[n - 1].1 < m then es[n - 1].1 else m
  }

  /** Each intersection costs the size of the running result it starts from. */
  function IntersectionCost(w: CostWeights, es: seq<Estimate>, n: nat): nat
    requires 0 < n <= |es|
  {
    if n == 1 then 0 else IntersectionCost(w, es, n - 1) + RunningMin(es, n - 1) * w.intersection
  }

  function Cost(w: CostWeights, es: seq<Estimate>): nat {
    |es| * w.lookup
    + if |es| > 1 then IntersectionCost(w, es, |es|) + RunningMin(es, |es|) * w.memoryAccess else 0
  }

  lemma {:induction false} RunningMinIsMinimum(es: seq<Estimate>, n: nat)
    requires 0 < n <= |es|
    ensures forall i :: 0 <= i < n ==> RunningMin(es, n) <= es[i].1
    ensures exists i :: 0 <= i < n && RunningMin(es, n) == es[i].1
  {
    if n == 1 {
      assert RunningMin(es, 1) == es[0].1;
    } else {
      RunningMinIsMinimum(es, n - 1);
      var m := RunningMin(es, n - 1);
      var k :| 0 <= k < n - 1 && m == es[k].1;
      assert RunningMin(es, n) == if es[n - 1].1 < m then es[n - 1].1 else m;
      hide RunningMin;
      assert RunningMin(es, n) == es[if es[n - 1].1 < m then n - 1 else k].1;
    }
  }

  lemma {:induction false} RunningMinOfAscending(es: seq<Estimate>, n: nat)
    requires 0 < n <= |es| && Ascending(es)
    ensures RunningMin(es, n) == es[0].1
  {
    if n > 1 {
      RunningMinOfAscending(es, n - 1);
    }
  }

  lemma {:induction false} CheapestPrefixes(w: CostWeights, a: seq<Estimate>, b: seq<Estimate>, n: nat)
    requires 0 < n <= |a| == |b|
    requires forall i :: 1 <= i <= n ==> RunningMin(a, i) <= RunningMin(b, i)
    ensures IntersectionCost(w, a, n) <= IntersectionCost(w, b, n)
  {
    if n > 1 {
      CheapestPrefixes(w, a, b, n - 1);
      Scaled(RunningMin(a, n - 1), RunningMin(b, n - 1), w.intersection);
    }
  }

  lemma Scaled(x: nat, y: nat, k: nat)
    requires x <= y
    ensures x * k <= y * k
  {
  }

  /** No order of the same filters is estimated cheaper than the ascending one, whatever the weights. */
  lemma SortedIsCheapest(w: CostWeights, es: seq<Estimate>, other: seq<Estimate>)
    requires multiset(other) == multiset(es)
    ensures Cost(w, Sorted(es)) <= Cost(w, other)
  {
    var a := Sorted(es);
    SortedPermutes(es);
    assert |other| == |multiset(other)| == |multiset(es)| == |es|;
    if |es| > 1 {
      forall i | 1 <= i <= |a| ensures RunningMin(a, i) <= RunningMin(other, i) {
        RunningMinOfAscending(a, i);
        RunningMinIsMinimum(other, i);
        var j :| 0 <= j < i && RunningMin(other, i) == other[j].1;
        assert other[j] in multiset(other);
        assert other[j] in a;
      }
      CheapestPrefixes(w, a, other, |a|);
      Scaled(RunningMin(a, |a|), RunningMin(other, |a|), w.memoryAccess);
    }
  }

  // ---------------------------------------------------------------- the cost in numbers

  /** `m` is the smallest of the first `n` estimates. */
  predicate IsMinimum(es: seq<Estimate>, n: nat, m: nat)
    requires n <= |es|
  {
    (forall i :: 0 <= i < n ==> m <= es[i].1) && exists i :: 0 <= i < n && es[i].1 == m
  }

  function Sum(s: seq<nat>): nat {
    if s == [] then 0 else Sum(s[..|s| - 1]) + s[|s| - 1]
  }

  lemma OneMinimum(es: seq<Estimate>, n: nat, m: nat)
    requires 0 < n <= |es| && IsMinimum(es, n, m)
    ensures RunningMin(es, n) == m
  {
    RunningMinIsMinimum(es, n);
    hide RunningMin;
  }

  lemma {:induction false} IntersectionsAddUp(w: CostWeights, es: seq<Estimate>, mins: seq<nat>, n: nat)
    requires 0 < n <= |es| == |mins| && forall i :: 0 <= i < |mins| ==> IsMinimum(es, i + 1, mins[i])
    ensures IntersectionCost(w, es, n) == Sum(mins[..n - 1]) * w.intersection
  {
    if n > 1 {
      IntersectionsAddUp(w, es, mins, n - 1);
      OneMinimum(es, n - 1, mins[n - 2]);
      assert mins[..n - 1][..n - 2] == mins[..n - 2];
      hide IsMinimum, RunningMin;
      Distributes(Sum(mins[..n - 2]), mins[n - 2], w.intersection);
    }
  }

  lemma Distributes(a: nat, b: nat, c: nat)
    ensures (a + b) * c == a * c + b * c
  {
  }

  /** What any order of filters costs: a lookup each, an intersection for each account of the smallest list so far,
      and a memory access for each of the smallest list of all. */
  lemma CostInNumbers(w: CostWeights, es: seq<Estimate>, mins: seq<nat>)
    requires |mins| == |es| && forall i :: 0 <= i < |mins| ==> IsMinimum(es, i + 1, mins[i])
    ensures Cost(w, es) == |es| * w.lookup +
      if |es| > 1 then Sum(mins[..|es| - 1]) * w.intersection + mins[|es| - 1] * w.memoryAccess else 0
  {
    if |es| > 1 {
      IntersectionsAddUp(w, es, mins, |es|);
      OneMinimum(es, |es|, mins[|es| - 1]);
    }
  }

  function Repeated(m: nat, n: nat): seq<nat> {
    seq(n, i => m)
  }

  lemma {:induction false} SumOfRepeated(m: nat, n: nat)
    ensures Sum(Repeated(m, n)) == n * m
  {
    if n > 0 {
      SumOfRepeated(m, n - 1);
      assert Repeated(m, n)[..n - 1] == Repeated(m, n - 1);
      Distributes(n - 1, 1, m);
    }
  }

  /** In ascending order the first list is the smallest all along. */
  lemma CostOfAscending(w: CostWeights, es: seq<Estimate>)
    requires es != [] && Ascending(es)
    ensures var n, m := |es|, es[0].1;
      Cost(w, es) == n * w.lookup + if n > 1 then (n - 1) * m * w.intersection + m * w.memoryAccess else 0
  {
    var n, m := |es|, es[0].1;
    var mins := Repeated(m, n);
    forall i | 0 <= i < n ensures IsMinimum(es, i + 1, mins[i]) {
      assert es[0].1 == mins[i];
    }
    hide IsMinimum;
    CostInNumbers(w, es, mins);
    assert mins[..n - 1] == Repeated(m, n - 1);
    SumOfRepeated(m, n - 1);
    hide Cost, Repeated, Sum;
  }

  // ---------------------------------------------------------------- the object

  function Types(es: seq<Estimate>): (r: seq<FilterType>)
    ensures |r| == |es| && forall i :: 0 <= i < |es| ==> r[i] == es[i].0
  {
    seq(|es|, i requires 0 <= i < |es| => es[i].0)
  }

  /** The plan made from given statistics. */
  function PlanFor(w: CostWeights, s: Statistics, program: Pubkey, filters: seq<Filter>): Plan {
    var es := Sorted(Estimates(s, program, filters));
    Plan(Types(es), Intermediates(EstimateProgram(s, program), es, |es|), Cost(w, es))
  }

  /** The size estimate after each of the first `n` steps, started from the program's own estimate. */
  function Intermediates(program: nat, es: seq<Estimate>, n: nat): (r: seq<nat>)
    requires n <= |es|
    ensures |r| == n
  {
    if n == 0 then []
    else
      var m := RunningMin(es, n);
      Intermediates(program, es, n - 1) + [if program < m then program else m]
  }

  lemma {:induction false} IntermediatesAt(program: nat, es: seq<Estimate>, n: nat, i: nat)
    requires i < n <= |es|
    ensures Intermediates(program, es, n)[i] == var m := RunningMin(es, i + 1); if program < m then program else m
  {
    if i < n - 1 {
      IntermediatesAt(program, es, n - 1, i);
    }
  }

  /** The statistics describe the indexes as they are after history `h`. */
  ghost predicate Fresh(s: Statistics, h: seq<Event>) {
    && (forall p: Pubkey :: p in s.program <==> ProgramAccounts(h, p).Some?)
    && (forall p <- s.program :: s.program[p] == |ProgramAccounts(h, p).value|)
    && (forall n: nat :: n in s.dataSize <==> FilterAccounts(h, DataSize(n)).Some?)
    && (forall n <- s.dataSize :: s.dataSize[n] == |FilterAccounts(h, DataSize(n)).value|)
    && (forall k: MemKey :: k in s.memcmp <==> FilterAccounts(h, Memcmp(k.offset, k.bytes)).Some?)
    && (forall k <- s.memcmp :: s.memcmp[k] == |FilterAccounts(h, Memcmp(k.offset, k.bytes)).value|)
    && (forall d: seq<byte> :: d in s.discriminator <==> FilterAccounts(h, Discriminator(d)).Some?)
    && (forall d <- s.discriminator :: s.discriminator[d] == |FilterAccounts(h, Discriminator(d)).value|)
  }

  ghost predicate Counts<T(!new)>(counts: map<T, nat>, trace: seq<K.Event<T>>) {
    && (forall k: T :: k in counts <==> K.EverAdded(trace, k))
    && (forall k <- counts :: counts[k] == |K.Lookup(trace, k).value|)
  }

  lemma CountsLookups<T(!new)>(counts: map<T, nat>, trace: seq<K.Event<T>>)
    requires Counts(counts, trace)
    ensures forall k: T :: k in counts <==> K.Lookup(trace, k).Some?
    ensures forall k <- counts :: counts[k] == |K.Lookup(trace, k).value|
  {
    hide K.EverAdded, K.Members;
  }

  lemma FreshFromTraces(s: Statistics, h: seq<Event>)
    requires Counts(s.program, ProgramTrace(h)) && Counts(s.dataSize, SizeTrace(h))
    requires Counts(s.memcmp, MemcmpTrace(h)) && Counts(s.discriminator, DiscriminatorTrace(h))
    ensures Fresh(s, h)
  {
    hide Counts, K.Lookup, ProgramTrace, SizeTrace, MemcmpTrace, DiscriminatorTrace;
    CountsLookups(s.program, ProgramTrace(h));
    CountsLookups(s.dataSize, SizeTrace(h));
    CountsLookups(s.memcmp, MemcmpTrace(h));
    CountsLookups(s.discriminator, DiscriminatorTrace(h));
  }

  /** Counts the accounts under every key of one index. */
  method Cardinalities<T(==,!new)>(index: K.Index<T>) returns (r: map<T, nat>)
    requires index.Valid()
    ensures Counts(r, index.trace)
  {
    hide K.EverAdded;
    hide K.Exec;
    var todo := index.AllKeys();
    r := map[];
    while todo != {}
      invariant forall k: T :: k in r || k in todo <==> K.EverAdded(index.trace, k)
      invariant forall k <- r :: r[k] == |K.Lookup(index.trace, k).value|
      decreases todo
    {
      var k :| k in todo;
      var accounts := index.GetAccounts(k);
      if accounts.Some? {
        r := r[k := |accounts.value|];
      }
      todo := todo - {k};
    }
  }

  class QueryCostModel {
    var stats: Statistics
    const weights: CostWeights

    constructor ()
      ensures stats == Statistics(map[], map[], map[], map[], 0) && weights == CostWeights(10, 1, 2)
    {
      stats := Statistics(map[], map[], map[], map[], 0);
      weights := DEFAULT_WEIGHTS;
    }

    /** `refresh_statistics`. */
    method RefreshStatistics(m: Manager, currentSlot: nat)
      requires m.Valid()
      modifies this
      ensures Fresh(stats, m.history) && stats.lastUpdatedSlot == currentSlot
    {
      hide K.Exec;
      hide K.EverAdded;
      hide K.Lookup;
      hide Fresh;
      hide ProgramTrace;
      hide SizeTrace;
      hide MemcmpTrace;
      hide DiscriminatorTrace;
      var program := Cardinalities(m.programIndex);
      var dataSize := Cardinalities(m.sizeIndex);
      var memcmp := Cardinalities(m.memcmpIndex);
      var discriminator := Cardinalities(m.discriminatorIndex);
      stats := Statistics(program, dataSize, memcmp, discriminator, currentSlot);
      FreshFromTraces(stats, m.history);
    }

    /** `create_optimized_plan`. */
    method CreateOptimizedPlan(program: Pubkey, filters: seq<Filter>) returns (plan: Plan)
      ensures plan == PlanFor(weights, stats, program, filters)
    {
      var programCardinality := EstimateProgram(stats, program);
      var estimates := Gather(program, filters);
      estimates := Sorted(estimates);
      var intermediate := Shrink(programCardinality, estimates);
      var cost := CalculateCost(estimates);
      plan := Plan(Types(estimates), intermediate, cost);
    }

    /** Collects the estimate of the program and of each filter. */
    method Gather(program: Pubkey, filters: seq<Filter>) returns (estimates: seq<Estimate>)
      ensures estimates == Estimates(stats, program, filters)
    {
      estimates := [(Program(program), EstimateProgram(stats, program))];
      for i := 0 to |filters|
        invariant estimates == Estimates(stats, program, filters[..i])
      {
        assert filters[..i + 1][..i] == filters[..i];
        estimates := estimates + [(Of(filters[i]), EstimateFilter(stats, filters[i]))];
      }
      assert filters[..|filters|] == filters;
    }

    /** Runs the minimum down the execution order. */
    method Shrink(programCardinality: nat, estimates: seq<Estimate>) returns (intermediate: seq<nat>)
      ensures intermediate == Intermediates(programCardinality, estimates, |estimates|)
    {
      intermediate := [];
      var current := programCardinality;
      for i := 0 to |estimates|
        invariant i == 0 ==> current == programCardinality
        invariant i > 0 ==>
          current == var m := RunningMin(estimates, i); if programCardinality < m then programCardinality else m
        invariant intermediate == Intermediates(programCardinality, estimates, i)
      {
        current := if estimates[i].1 < current then estimates[i].1 else current;
        intermediate := intermediate + [current];
      }
    }

    /** `calculate_cost`. */
    method CalculateCost(filters: seq<Estimate>) returns (total: nat)
      ensures total == Cost(weights, filters)
    {
      total := |filters| * weights.lookup;
      if |filters| > 1 {
        var running := filters[0].1;
        for i := 1 to |filters|
          invariant running == RunningMin(filters, i)
          invariant total == |filters| * weights.lookup + IntersectionCost(weights, filters, i)
        {
          total := total + running * weights.intersection;
          running := if filters[i].1 < running then filters[i].1 else running;
        }
        total := total + running * weights.memoryAccess;
      }
    }
  }
}
