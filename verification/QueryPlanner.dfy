/** Executes `getProgramAccounts` over the secondary indexes, in request order or in planned order. */
module QueryPlanner {
  import opened Bytes
  import opened Wrappers
  import opened IndexManager
  import opened CostModel
  import K = KeyedIndex
  import P = Pagination

  // ---------------------------------------------------------------- what a query answers

  /** A filter whose key was never indexed lets every account pass. */
  predicate Passes(h: seq<Event>, f: Filter, a: Pubkey) {
    FilterAccounts(h, f).Some? ==> a in FilterAccounts(h, f).value
  }

  /** The answer of `execute_query`, as a set. */
  function Answer(h: seq<Event>, program: Pubkey, filters: seq<Filter>): set<Pubkey> {
    match ProgramAccounts(h, program)
    case None => {}
    case Some(accounts) => set a | a in accounts && forall f <- filters :: Passes(h, f, a)
  }

  lemma InAnswer(h: seq<Event>, program: Pubkey, filters: seq<Filter>, a: Pubkey)
    ensures a in Answer(h, program, filters) <==>
      K.Member(ProgramTrace(h), a, program) && forall f <- filters :: Passes(h, f, a)
  {
    hide K.Lookup;
    K.LookupListsMembers(ProgramTrace(h), program);
    K.MemberWasAdded(ProgramTrace(h), a, program);
  }

  /**
   No false negatives: an account whose last event is an update is in the answer of every query on
   its current owner whose filters its current data satisfies.
   */
  lemma NoFalseNegatives(h: seq<Event>, a: Pubkey, filters: seq<Filter>)
    requires LastEvent(h, a).Some? && LastEvent(h, a).value.Update?
    requires forall f <- filters :: Matches(LastEvent(h, a).value.data, f)
    ensures a in Answer(h, LastEvent(h, a).value.owner, filters)
  {
    CurrentFiling(h, a);
    InAnswer(h, LastEvent(h, a).value.owner, filters, a);
    forall f | f in filters ensures Passes(h, f, a) {
      MatchingIsFiled(h, a, f);
      FilterAccountsAreFiled(h, f);
    }
  }

  lemma {:induction false} LastOwnerIsCurrent(h: seq<Event>, a: Pubkey)
    ensures LastEvent(h, a).Some? && LastEvent(h, a).value.Update? ==> LastOwner(h, a) == Some(LastEvent(h, a).value.owner)
  {
    if h != [] {
      LastOwnerIsCurrent(h[..|h| - 1], a);
    }
  }

  lemma {:induction false} RemovalUnfiles(h: seq<Event>, a: Pubkey)
    ensures LastEvent(h, a).Some? && LastEvent(h, a).value.Removed? && LastOwner(h, a).Some? ==>
      !K.Member(ProgramTrace(h), a, LastOwner(h, a).value)
  {
    if h != [] {
      var front, e := h[..|h| - 1], h[|h| - 1];
      RemovalUnfiles(front, a);
      CurrentFiling(front, a);
      LastOwnerIsCurrent(front, a);
      if LastOwner(h, a).Some? {
        MemberSnoc(ProgramTrace(front), ProgramEvents(e)[0], a, LastOwner(h, a).value);
        if e == Removed(a) {
          NoEventNoOwner(front, a);
        }
      }
    }
  }

  lemma {:induction false} NoEventNoOwner(h: seq<Event>, a: Pubkey)
    ensures LastEvent(h, a).None? ==> LastOwner(h, a).None?
  {
    if h != [] {
      NoEventNoOwner(h[..|h| - 1], a);
    }
  }

  /** A removed account is never in an answer for the program that owned it last. */
  lemma RemovedIsNotAnswered(h: seq<Event>, a: Pubkey, filters: seq<Filter>)
    requires LastEvent(h, a) == Some(Removed(a)) && LastOwner(h, a).Some?
    ensures a !in Answer(h, LastOwner(h, a).value, filters)
  {
    RemovalUnfiles(h, a);
    InAnswer(h, LastOwner(h, a).value, filters, a);
  }

  /** An account whose keys never change is answered exactly while it is live with that owner and matches
      every filter whose key is indexed. */
  lemma ExactWhenKeysNeverChange(h: seq<Event>, program: Pubkey, filters: seq<Filter>, a: Pubkey)
    requires KeysNeverChange(h, a)
    ensures a in Answer(h, program, filters) <==>
      && LastEvent(h, a).Some? && LastEvent(h, a).value.Update? && LastEvent(h, a).value.owner == program
      && forall f <- filters :: FilterAccounts(h, f).Some? ==> Matches(LastEvent(h, a).value.data, f)
  {
    InAnswer(h, program, filters, a);
    StableOwner(h, a, program);
    if LastEvent(h, a).Some? && LastEvent(h, a).value.Update? {
      forall f | f in filters && FilterAccounts(h, f).Some?
        ensures Passes(h, f, a) <==> Matches(LastEvent(h, a).value.data, f)
      {
        FilterAccountsAreFiled(h, f);
        StableMatches(h, a, f);
      }
    }
  }

  /** `a` is live and owned by `p`. */
  predicate OwnedBy(h: seq<Event>, a: Pubkey, p: Pubkey) {
    LastEvent(h, a).Some? && LastEvent(h, a).value.Update? && LastEvent(h, a).value.owner == p
  }

  /** Update number `i` gave `a` to `p`, and no later removal found `a` owned by `p`. */
  predicate NeverLeft(h: seq<Event>, a: Pubkey, p: Pubkey, i: nat) {
    && i < |h| && Updates(h[i], a) && h[i].owner == p
    && forall j :: i < j < |h| && h[j] == Removed(a) ==> !OwnedBy(h[..j], a, p)
  }

  lemma NeverLeftSnoc(h: seq<Event>, a: Pubkey, p: Pubkey, i: nat)
    requires i < |h| - 1
    ensures var n := |h| - 1;
      NeverLeft(h, a, p, i) <==> NeverLeft(h[..n], a, p, i) && !(h[n] == Removed(a) && OwnedBy(h[..n], a, p))
  {
    hide OwnedBy;
    var n := |h| - 1;
    assert forall j :: 0 <= j < n ==> h[..n][..j] == h[..j];
  }

  /** One event more, seen from the program index. */
  lemma FiledSnoc(front: seq<Event>, e: Event, a: Pubkey, p: Pubkey)
    ensures K.Member(ProgramTrace(front + [e]), a, p) <==>
      (Updates(e, a) && e.owner == p) || (K.Member(ProgramTrace(front), a, p) && !(e == Removed(a) && OwnedBy(front, a, p)))
  {
    TracesSnoc(front, e);
    OwnerStep(front, e, a, p);
    CurrentFiling(front, a);
    hide K.Member, ProgramTrace;
  }

  /** An account is listed under a program exactly when some update put it there and no later removal was
      made while that program owned it. */
  lemma ListedExactly(h: seq<Event>, a: Pubkey, p: Pubkey)
    ensures a in Answer(h, p, []) <==> exists i: nat :: NeverLeft(h, a, p, i)
  {
    InAnswer(h, p, [], a);
    FiledExactly(h, a, p);
  }

  lemma {:induction false} FiledExactly(h: seq<Event>, a: Pubkey, p: Pubkey)
    ensures K.Member(ProgramTrace(h), a, p) <==> exists i: nat :: NeverLeft(h, a, p, i)
  {
    if h != [] {
      var n := |h| - 1;
      FiledExactly(h[..n], a, p);
      assert h == h[..n] + [h[n]];
      FiledSnoc(h[..n], h[n], a, p);
      forall i: nat | i < n
        ensures NeverLeft(h, a, p, i) <==> NeverLeft(h[..n], a, p, i) && !(h[n] == Removed(a) && OwnedBy(h[..n], a, p))
      {
        NeverLeftSnoc(h, a, p, i);
      }
      assert NeverLeft(h, a, p, n) <==> Updates(h[n], a) && h[n].owner == p;
      assert forall i: nat :: NeverLeft(h, a, p, i) ==> i <= n;
      assert forall i: nat :: NeverLeft(h[..n], a, p, i) ==> i < n;
      hide *;
    }
  }

  /** `a` never passed from one owner to another without being removed in between. */
  predicate RemovedBeforeMoving(h: seq<Event>, a: Pubkey) {
    forall j :: 0 <= j < |h| && Updates(h[j], a) ==> ComesFromNowhereElse(h[..j], a, h[j].owner)
  }

  predicate ComesFromNowhereElse(h: seq<Event>, a: Pubkey, p: Pubkey) {
    LastEvent(h, a).Some? && LastEvent(h, a).value.Update? ==> LastEvent(h, a).value.owner == p
  }

  lemma {:induction false} MovingCleanly(h: seq<Event>, a: Pubkey, p: Pubkey)
    requires RemovedBeforeMoving(h, a)
    ensures K.Member(ProgramTrace(h), a, p) <==> OwnedBy(h, a, p)
  {
    if h != [] {
      var n := |h| - 1;
      var front, e := h[..n], h[n];
      assert h == front + [e];
      assert RemovedBeforeMoving(front, a) by {
        assert forall j :: 0 <= j < n ==> front[..j] == h[..j];
      }
      MovingCleanly(front, a, p);
      FiledSnoc(front, e, a, p);
      LastEventSnoc(front, e, a);
      LastEventHappened(front, a);
      assert Updates(e, a) ==> ComesFromNowhereElse(front, a, e.owner);
      hide K.Member, ProgramTrace, LastEvent, RemovedBeforeMoving;
    }
  }

  /** At some moment `a` is listed under a program that does not own it. */
  ghost predicate EverMislisted(h: seq<Event>, a: Pubkey) {
    exists n, p :: 0 <= n <= |h| && Mislisted(h[..n], a, p)
  }

  predicate Mislisted(h: seq<Event>, a: Pubkey, p: Pubkey) {
    (a in Answer(h, p, [])) != OwnedBy(h, a, p)
  }

  /** A change of owner without a removal leaves the account listed under both owners. */
  lemma OldOwnerStillListed(front: seq<Event>, e: Event, a: Pubkey)
    requires Updates(e, a) && !ComesFromNowhereElse(front, a, e.owner)
    ensures var h, p := front + [e], LastEvent(front, a).value.owner;
      && p != e.owner && OwnedBy(h, a, e.owner)
      && a in Answer(h, p, []) && a in Answer(h, e.owner, []) && Mislisted(h, a, p)
  {
    var h, p := front + [e], LastEvent(front, a).value.owner;
    CurrentFiling(front, a);
    FiledSnoc(front, e, a, p);
    FiledSnoc(front, e, a, e.owner);
    InAnswer(h, p, [], a);
    InAnswer(h, e.owner, [], a);
    LastEventSnoc(front, e, a);
    hide K.Member, ProgramTrace, Answer, LastEvent;
  }

  /** Throughout a history an account is listed under exactly its owner if and only if it was removed
      before every change of owner. */
  lemma ListedUnderOwnerExactly(h: seq<Event>, a: Pubkey)
    ensures !EverMislisted(h, a) <==> RemovedBeforeMoving(h, a)
  {
    hide Answer, OwnedBy, K.Member;
    if RemovedBeforeMoving(h, a) {
      forall n, p | 0 <= n <= |h| ensures !Mislisted(h[..n], a, p) {
        assert RemovedBeforeMoving(h[..n], a) by {
          assert forall j :: 0 <= j < n ==> h[..n][..j] == h[..j];
        }
        MovingCleanly(h[..n], a, p);
        InAnswer(h[..n], p, [], a);
      }
    } else {
      var j :| 0 <= j < |h| && Updates(h[j], a) && !ComesFromNowhereElse(h[..j], a, h[j].owner);
      OldOwnerStillListed(h[..j], h[j], a);
      assert h[..j + 1] == h[..j] + [h[j]];
    }
  }

  // ---------------------------------------------------------------- the planned order

  function TypeAccounts(h: seq<Event>, t: FilterType): Option<seq<Pubkey>> {
    match t
    case Program(id) => ProgramAccounts(h, id)
    case Of(f) => FilterAccounts(h, f)
  }

  function AsSet(s: seq<Pubkey>): set<Pubkey> {
    set a | a in s
  }

  /** Running result after the first `n` planned filters: absent keys are skipped. */
  function Running(h: seq<Event>, order: seq<FilterType>, n: nat): Option<set<Pubkey>>
    requires n <= |order|
  {
    if n == 0 then None
    else
      match (Running(h, order, n - 1), TypeAccounts(h, order[n - 1]))
      case (current, None) => current
      case (None, Some(accounts)) => Some(AsSet(accounts))
      case (Some(current), Some(accounts)) => Some(current * AsSet(accounts))
  }

  function OrDefault(r: Option<set<Pubkey>>): set<Pubkey> {
    match r
    case None => {}
    case Some(s) => s
  }

  /** The answer of `execute_query_optimized` for a given execution order. */
  function PlannedAnswer(h: seq<Event>, order: seq<FilterType>): set<Pubkey> {
    OrDefault(Running(h, order, |order|))
  }

  lemma {:induction false} RunningIsIntersection(h: seq<Event>, order: seq<FilterType>, n: nat, a: Pubkey)
    requires n <= |order|
    ensures Running(h, order, n).None? <==> forall i :: 0 <= i < n ==> TypeAccounts(h, order[i]).None?
    ensures Running(h, order, n).Some? ==>
      (a in Running(h, order, n).value <==>
        forall i :: 0 <= i < n && TypeAccounts(h, order[i]).Some? ==> a in TypeAccounts(h, order[i]).value)
  {
    hide TypeAccounts;
    if n > 0 {
      RunningIsIntersection(h, order, n - 1, a);
    }
  }

  /** The filters of a request, as planned filter types. */
  function Requested(program: Pubkey, filters: seq<Filter>): seq<FilterType> {
    [Program(program)] + seq(|filters|, i requires 0 <= i < |filters| => Of(filters[i]))
  }

  /** `a` passes every filter, and some filter is indexed. */
  predicate OnlyFilters(h: seq<Event>, filters: seq<Filter>, a: Pubkey) {
    (exists f <- filters :: FilterAccounts(h, f).Some?) && forall f <- filters :: Passes(h, f, a)
  }

  /**
   Any execution order of the same filters gives the same answer as request order whenever the
   program is in the program index.  When it is not, request order answers nothing, but the planned
   order answers with the intersection of the filters that are indexed.
   */
  lemma OrderPreservesMeaning(h: seq<Event>, program: Pubkey, filters: seq<Filter>, order: seq<FilterType>)
    requires multiset(order) == multiset(Requested(program, filters))
    ensures ProgramAccounts(h, program).Some? ==> PlannedAnswer(h, order) == Answer(h, program, filters)
    ensures ProgramAccounts(h, program).None? ==> Answer(h, program, filters) == {}
    ensures ProgramAccounts(h, program).None? ==> forall a: Pubkey ::
      a in PlannedAnswer(h, order) <==> OnlyFilters(h, filters, a)
  {
    forall a: Pubkey
      ensures ProgramAccounts(h, program).Some? ==> (a in PlannedAnswer(h, order) <==> a in Answer(h, program, filters))
      ensures ProgramAccounts(h, program).None? ==> (a in PlannedAnswer(h, order) <==> OnlyFilters(h, filters, a))
    {
      SameTypes(program, filters, order);
      RunningIsIntersection(h, order, |order|, a);
      OrderMembership(h, program, filters, order, a);
    }
  }

  lemma SameTypes(program: Pubkey, filters: seq<Filter>, order: seq<FilterType>)
    requires multiset(order) == multiset(Requested(program, filters))
    ensures forall t :: t in order <==> t == Program(program) || (t.Of? && t.filter in filters)
  {
    var r := Requested(program, filters);
    forall t ensures t in order <==> t in r {
      assert t in order <==> t in multiset(order);
      assert t in r <==> t in multiset(r);
    }
    forall t ensures t in r <==> t == Program(program) || (t.Of? && t.filter in filters) {
      if t.Of? && t.filter in filters {
        var i :| 0 <= i < |filters| && filters[i] == t.filter;
        assert r[i + 1] == t;
      }
      assert r[0] == Program(program);
    }
  }

  lemma OrderMembership(h: seq<Event>, program: Pubkey, filters: seq<Filter>, order: seq<FilterType>, a: Pubkey)
    requires forall t :: t in order <==> t == Program(program) || (t.Of? && t.filter in filters)
    ensures (forall i :: 0 <= i < |order| && TypeAccounts(h, order[i]).Some? ==> a in TypeAccounts(h, order[i]).value) <==>
      (ProgramAccounts(h, program).Some? ==> a in ProgramAccounts(h, program).value)
      && forall f <- filters :: Passes(h, f, a)
    ensures (forall i :: 0 <= i < |order| ==> TypeAccounts(h, order[i]).None?) <==>
      ProgramAccounts(h, program).None? && forall f <- filters :: FilterAccounts(h, f).None?
  {
    hide FilterAccounts;
    hide ProgramAccounts;
    assert Program(program) in order;
    forall f | f in filters ensures Of(f) in order {
    }
    assert forall i :: 0 <= i < |order| ==> order[i] in order;
  }

  lemma TypesConcat(a: seq<Estimate>, b: seq<Estimate>)
    ensures Types(a + b) == Types(a) + Types(b)
  {
  }

  lemma InsertKeepsTypes(rest: seq<Estimate>, x: Estimate, p: nat)
    requires p <= |rest|
    ensures multiset(Types(rest[..p] + [x] + rest[p..])) == multiset(Types(rest)) + multiset{x.0}
  {
    assert rest == rest[..p] + rest[p..];
    TypesConcat(rest[..p], rest[p..]);
    TypesConcat(rest[..p], [x]);
    TypesConcat(rest[..p] + [x], rest[p..]);
    assert Types([x]) == [x.0];
    hide Types;
    assert multiset(Types(rest)) == multiset(Types(rest[..p])) + multiset(Types(rest[p..]));
  }

  lemma {:induction false} SortedKeepsTypes(es: seq<Estimate>)
    ensures multiset(Types(Sorted(es))) == multiset(Types(es))
  {
    if es != [] {
      var front, x := es[..|es| - 1], es[|es| - 1];
      var rest := Sorted(front);
      assert Types(es) == Types(front) + [x.0];
      hide *;
      SortedKeepsTypes(front);
      SortedSnoc(es);
      InsertKeepsTypes(rest, x, Position(rest, x));
    }
  }

  lemma {:induction false} EstimatesOfRequest(s: Statistics, program: Pubkey, filters: seq<Filter>)
    ensures Types(Estimates(s, program, filters)) == Requested(program, filters)
    ensures forall e <- Estimates(s, program, filters) :: e.1 == EstimateOf(s, e.0)
  {
    if filters != [] {
      var front := filters[..|filters| - 1];
      EstimatesOfRequest(s, program, front);
      assert Requested(program, filters) == Requested(program, front) + [Of(filters[|filters| - 1])];
    }
  }

  /** Whatever the statistics, fresh or stale, the plan executes a permutation of the request. */
  lemma PlanPermutesRequest(w: CostWeights, s: Statistics, program: Pubkey, filters: seq<Filter>)
    ensures multiset(PlanFor(w, s, program, filters).order) == multiset(Requested(program, filters))
  {
    SortedKeepsTypes(Estimates(s, program, filters));
    EstimatesOfRequest(s, program, filters);
  }

  /** So reordering by estimated cardinality preserves meaning for every indexed program. */
  lemma StatisticsDoNotMatter(h: seq<Event>, w: CostWeights, s: Statistics, program: Pubkey, filters: seq<Filter>)
    requires ProgramAccounts(h, program).Some?
    ensures PlannedAnswer(h, PlanFor(w, s, program, filters).order) == Answer(h, program, filters)
  {
    PlanPermutesRequest(w, s, program, filters);
    OrderPreservesMeaning(h, program, filters, PlanFor(w, s, program, filters).order);
  }

  /** The two orders of execution agree exactly when the program is indexed or no account passes the filters alone. */
  lemma OrdersAgreeExactly(h: seq<Event>, program: Pubkey, filters: seq<Filter>, order: seq<FilterType>)
    requires multiset(order) == multiset(Requested(program, filters))
    ensures PlannedAnswer(h, order) == Answer(h, program, filters) <==>
      ProgramAccounts(h, program).Some? || forall a: Pubkey :: !OnlyFilters(h, filters, a)
  {
    hide PlannedAnswer, Answer, OnlyFilters, ProgramAccounts;
    OrderPreservesMeaning(h, program, filters, order);
    if ProgramAccounts(h, program).None? {
      if a: Pubkey :| OnlyFilters(h, filters, a) {
        assert a in PlannedAnswer(h, order);
      } else {
        assert forall a: Pubkey :: a !in PlannedAnswer(h, order);
        assert PlannedAnswer(h, order) == {};
      }
    }
  }

  lemma {:induction false} LastOwnerIsIndexed(h: seq<Event>, a: Pubkey)
    ensures LastOwner(h, a).Some? ==> ProgramAccounts(h, LastOwner(h, a).value).Some?
  {
    if h != [] {
      var front, e := h[..|h| - 1], h[|h| - 1];
      assert h == front + [e];
      LastOwnerIsIndexed(front, a);
      TracesSnoc(front, e);
      if LastOwner(h, a).Some? {
        K.EverAddedSnoc(ProgramTrace(front), ProgramEvents(e)[0], LastOwner(h, a).value);
      }
    }
  }

  /** Under any plan too, an updated account is answered where its data satisfies the filters, and a removed
      one is not answered for its last owner. */
  lemma PlansAnswerAlike(h: seq<Event>, w: CostWeights, s: Statistics, filters: seq<Filter>, a: Pubkey)
    requires LastOwner(h, a).Some? && LastEvent(h, a).Some?
    ensures var order := PlanFor(w, s, LastOwner(h, a).value, filters).order;
      && (LastEvent(h, a).value.Removed? ==> a !in PlannedAnswer(h, order))
      && (LastEvent(h, a).value.Update? && (forall f <- filters :: Matches(LastEvent(h, a).value.data, f)) ==>
            a in PlannedAnswer(h, order))
  {
    LastOwnerIsIndexed(h, a);
    StatisticsDoNotMatter(h, w, s, LastOwner(h, a).value, filters);
    LastEventHappened(h, a);
    LastOwnerIsCurrent(h, a);
    hide PlannedAnswer, PlanFor, Answer, LastEvent, LastOwner, ProgramAccounts;
    if LastEvent(h, a).value.Removed? {
      RemovedIsNotAnswered(h, a, filters);
    } else if forall f <- filters :: Matches(LastEvent(h, a).value.data, f) {
      NoFalseNegatives(h, a, filters);
    }
  }

  lemma LookupOfOneAdd<T>(a: Pubkey, k: T, other: T)
    ensures K.EverAdded([K.Add(a, k)], other) <==> other == k
  {
    assert K.Add(a, k) in [K.Add(a, k)];
  }

  lemma TracesOfOneUpdate(a: Pubkey, p: Pubkey, data: seq<byte>)
    ensures var h := [Update(a, p, data)];
      && ProgramTrace(h) == [K.Add(a, p)] && SizeTrace(h) == [K.Add(a, |data|)]
      && LastEvent(h, a) == Some(Update(a, p, data))
  {
    var e := Update(a, p, data);
    TracesSnoc([], e);
    assert [] + [e] == [e];
  }

  /** What a single update leaves in the indexes. */
  lemma OneUpdate(a: Pubkey, p: Pubkey, q: Pubkey, data: seq<byte>)
    requires p != q
    ensures var h, f := [Update(a, p, data)], DataSize(|data|);
      && ProgramAccounts(h, q).None? && FilterAccounts(h, f).Some? && Passes(h, f, a)
  {
    var h := [Update(a, p, data)];
    hide ProgramTrace, SizeTrace, K.Member, K.CurrentKey, K.EverAdded, K.Members, K.FirstAdds, LastEvent;
    TracesOfOneUpdate(a, p, data);
    CurrentFiling(h, a);
    LookupOfOneAdd<Pubkey>(a, p, q);
    LookupOfOneAdd<nat>(a, |data|, |data|);
    FilterAccountsAreFiled(h, DataSize(|data|));
  }

  /** For a program that is not indexed the two differ as soon as an account passes the indexed filters alone. */
  lemma UnindexedProgramDiffers(a: Pubkey, p: Pubkey, q: Pubkey, data: seq<byte>, order: seq<FilterType>)
    requires p != q && multiset(order) == multiset(Requested(q, [DataSize(|data|)]))
    ensures var h := [Update(a, p, data)];
      Answer(h, q, [DataSize(|data|)]) == {} && a in PlannedAnswer(h, order)
  {
    var h, f := [Update(a, p, data)], DataSize(|data|);
    hide PlannedAnswer, Answer, ProgramAccounts, FilterAccounts, Requested, Passes;
    OneUpdate(a, p, q, data);
    OrderPreservesMeaning(h, q, [f], order);
    assert f in [f] && forall g <- [f] :: g == f;
    assert OnlyFilters(h, [f], a);
  }

  // ---------------------------------------------------------------- estimates bound the real sizes

  predicate EveryKeyIndexed(h: seq<Event>, program: Pubkey, filters: seq<Filter>) {
    ProgramAccounts(h, program).Some? && forall f <- filters :: FilterAccounts(h, f).Some?
  }

  lemma FreshEstimate(s: Statistics, h: seq<Event>, t: FilterType)
    requires Fresh(s, h) && TypeAccounts(h, t).Some?
    ensures EstimateOf(s, t) == |TypeAccounts(h, t).value|
  {
    hide K.Lookup;
    match t
    case Program(id) =>
    case Of(f) =>
      match f
      case DataSize(size) =>
      case Memcmp(offset, bytes) => assert MemKey(offset, bytes) in s.memcmp;
      case Discriminator(disc) =>
  }

  lemma {:induction false} SetOfSeqSize(s: seq<Pubkey>)
    ensures |AsSet(s)| <= |s|
  {
    if s != [] {
      SetOfSeqSize(s[1..]);
      assert AsSet(s) == {s[0]} + AsSet(s[1..]);
    }
  }

  /** The running result is never larger than any list already intersected. */
  lemma {:induction false} RunningIsSmall(h: seq<Event>, order: seq<FilterType>, n: nat, i: nat)
    requires i < n <= |order| && TypeAccounts(h, order[i]).Some?
    ensures Running(h, order, n).Some? && |Running(h, order, n).value| <= |TypeAccounts(h, order[i]).value|
  {
    hide TypeAccounts;
    var step := TypeAccounts(h, order[n - 1]);
    if i < n - 1 {
      RunningIsSmall(h, order, n - 1, i);
      if step.Some? {
        var current := Running(h, order, n - 1).value;
        SubsetSize(current * AsSet(step.value), current);
      }
    } else {
      SetOfSeqSize(step.value);
      if Running(h, order, n - 1).Some? {
        SubsetSize(Running(h, order, n - 1).value * AsSet(step.value), AsSet(step.value));
      }
    }
  }

  lemma {:induction false} SubsetSize(a: set<Pubkey>, b: set<Pubkey>)
    requires a <= b
    ensures |a| <= |b|
  {
    if a != {} {
      var x :| x in a;
      SubsetSize(a - {x}, b - {x});
    }
  }

  lemma AbsentIsZero(h: seq<Event>, s: Statistics, f: Filter)
    requires Fresh(s, h) && FilterAccounts(h, f).None?
    ensures EstimateFilter(s, f) == 0
  {
    hide K.Lookup;
    if f.Memcmp? {
      assert MemKey(f.offset, f.bytes) !in s.memcmp;
    }
  }

  /** A filter whose key is absent is estimated at zero, yet lets everything through. */
  lemma AbsentFilterEstimate(h: seq<Event>, s: Statistics, f: Filter, a: Pubkey)
    requires Fresh(s, h) && FilterAccounts(h, f).None?
    ensures EstimateFilter(s, f) == 0 && Passes(h, f, a)
  {
    AbsentIsZero(h, s, f);
  }

  /** The filter planned first is real, and none is smaller. */
  lemma LeadingEstimate(h: seq<Event>, s: Statistics, program: Pubkey, filters: seq<Filter>)
    requires Fresh(s, h) && EveryKeyIndexed(h, program, filters)
    ensures var first := Sorted(Estimates(s, program, filters))[0];
      TypeAccounts(h, first.0).Some? && first.1 == |TypeAccounts(h, first.0).value| <= EstimateProgram(s, program)
  {
    hide Fresh;
    hide TypeAccounts;
    hide Sorted;
    hide Estimates;
    var plain := Estimates(s, program, filters);
    var es := Sorted(plain);
    SortedElements(plain);
    EstimatesOfRequest(s, program, filters);
    assert Types(plain)[0] == Program(program) && plain[0] in es;
    var j :| 0 <= j < |es| && es[j] == plain[0];
    assert es[0].1 <= es[j].1;
    RequestedIsIndexed(h, program, filters, plain, es[0]);
    FreshEstimate(s, h, es[0].0);
  }

  lemma RequestedIsIndexed(h: seq<Event>, program: Pubkey, filters: seq<Filter>, plain: seq<Estimate>, e: Estimate)
    requires EveryKeyIndexed(h, program, filters) && Types(plain) == Requested(program, filters) && e in plain
    ensures TypeAccounts(h, e.0).Some?
  {
    hide FilterAccounts;
    hide ProgramAccounts;
    var i :| 0 <= i < |plain| && plain[i] == e;
    assert Types(plain)[i] == e.0;
  }

  /** With fresh statistics and every key indexed, each real intermediate result is within its estimate. */
  lemma EstimatesBoundResults(h: seq<Event>, w: CostWeights, s: Statistics, program: Pubkey, filters: seq<Filter>, i: nat)
    requires Fresh(s, h) && EveryKeyIndexed(h, program, filters)
    requires i < |PlanFor(w, s, program, filters).order|
    ensures var plan := PlanFor(w, s, program, filters);
      var r := Running(h, plan.order, i + 1);
      r.Some? && |r.value| <= plan.intermediate[i]
  {
    hide Fresh;
    hide EveryKeyIndexed;
    hide TypeAccounts;
    hide Running;
    hide Sorted;
    hide Estimates;
    var es := Sorted(Estimates(s, program, filters));
    LeadingEstimate(h, s, program, filters);
    RunningMinOfAscending(es, i + 1);
    IntermediatesAt(EstimateProgram(s, program), es, |es|, i);
    RunningIsSmall(h, Types(es), i + 1, 0);
  }

  // ---------------------------------------------------------------- exactly when they bound them

  /** Every real intermediate result that has been started is within its planned figure. */
  predicate WithinFigures(h: seq<Event>, order: seq<FilterType>, figures: seq<nat>)
    requires |figures| == |order|
  {
    forall i :: 0 <= i < |order| ==> StepWithin(h, order, figures, i)
  }

  predicate StepWithin(h: seq<Event>, order: seq<FilterType>, figures: seq<nat>, i: nat)
    requires i < |order| == |figures|
  {
    Running(h, order, i + 1).Some? ==> |Running(h, order, i + 1).value| <= figures[i]
  }

  predicate NothingIndexed(h: seq<Event>, types: seq<FilterType>) {
    forall t <- types :: TypeAccounts(h, t).None?
  }

  /** The smallest of the estimates is the size of a real list. */
  predicate SmallestIsReal(h: seq<Event>, s: Statistics, types: seq<FilterType>) {
    exists t <- types :: TypeAccounts(h, t).Some? && forall u <- types :: EstimateOf(s, t) <= EstimateOf(s, u)
  }

  lemma TypeAccountsDistinct(h: seq<Event>, t: FilterType)
    requires TypeAccounts(h, t).Some?
    ensures K.NoDuplicates(TypeAccounts(h, t).value)
  {
    hide K.Lookup, K.NoDuplicates;
    match t
    case Program(id) => K.LookupListsMembers(ProgramTrace(h), id);
    case Of(f) => FilterAccountsAreFiled(h, f);
  }

  lemma {:induction false} DistinctSize(s: seq<Pubkey>)
    requires K.NoDuplicates(s)
    ensures |AsSet(s)| == |s|
  {
    if s != [] {
      DistinctSize(s[1..]);
      assert AsSet(s) == {s[0]} + AsSet(s[1..]);
    }
  }

  lemma {:induction false} FirstListed(h: seq<Event>, order: seq<FilterType>) returns (j: nat)
    requires !NothingIndexed(h, order)
    ensures j < |order| && TypeAccounts(h, order[j]).Some?
    ensures forall i :: 0 <= i < j ==> TypeAccounts(h, order[i]).None?
  {
    hide TypeAccounts;
    if TypeAccounts(h, order[0]).Some? {
      j := 0;
    } else {
      var k := FirstListed(h, order[1..]);
      j := k + 1;
    }
  }

  lemma {:induction false} RunningNotStarted(h: seq<Event>, order: seq<FilterType>, n: nat)
    requires n <= |order| && forall i :: 0 <= i < n ==> TypeAccounts(h, order[i]).None?
    ensures Running(h, order, n).None?
  {
    hide TypeAccounts;
    if n > 0 {
      RunningNotStarted(h, order, n - 1);
    }
  }

  lemma RunningStarts(h: seq<Event>, order: seq<FilterType>, j: nat)
    requires j < |order| && TypeAccounts(h, order[j]).Some?
    requires forall i :: 0 <= i < j ==> TypeAccounts(h, order[i]).None?
    ensures Running(h, order, j + 1).Some? && |Running(h, order, j + 1).value| == |TypeAccounts(h, order[j]).value|
  {
    RunningNotStarted(h, order, j);
    TypeAccountsDistinct(h, order[j]);
    DistinctSize(TypeAccounts(h, order[j]).value);
    hide TypeAccounts, K.NoDuplicates;
  }

  /** Against one figure for all steps, the first list decides. */
  lemma FirstListDecides(h: seq<Event>, order: seq<FilterType>, figures: seq<nat>, lead: nat, j: nat)
    requires j < |order| == |figures| && (forall i :: 0 <= i < |order| ==> figures[i] == lead)
    requires TypeAccounts(h, order[j]).Some? && forall i :: 0 <= i < j ==> TypeAccounts(h, order[i]).None?
    ensures WithinFigures(h, order, figures) <==> |TypeAccounts(h, order[j]).value| <= lead
  {
    RunningStarts(h, order, j);
    hide Running, TypeAccounts;
    if |TypeAccounts(h, order[j]).value| <= lead {
      forall i | 0 <= i < |order| ensures StepWithin(h, order, figures, i) {
        if i < j {
          RunningNotStarted(h, order, i + 1);
        } else {
          RunningIsSmall(h, order, i + 1, j);
        }
      }
    } else {
      assert !StepWithin(h, order, figures, j);
    }
  }

  /** The order ascends by estimate, and every figure is the smallest estimate. */
  predicate LeadsWithSmallest(s: Statistics, order: seq<FilterType>, figures: seq<nat>) {
    && |order| == |figures| > 0
    && (forall i :: 0 <= i < |order| ==> figures[i] == EstimateOf(s, order[0]))
    && forall i, j :: 0 <= i < j < |order| ==> EstimateOf(s, order[i]) <= EstimateOf(s, order[j])
  }

  lemma LeadIsSmallest(s: Statistics, program: Pubkey, es: seq<Estimate>)
    requires es != [] && Ascending(es) && es[0].1 <= EstimateProgram(s, program)
    ensures forall i :: 0 <= i < |es| ==> Intermediates(EstimateProgram(s, program), es, |es|)[i] == es[0].1
  {
    hide Intermediates, RunningMin, EstimateProgram;
    forall i | 0 <= i < |es| ensures Intermediates(EstimateProgram(s, program), es, |es|)[i] == es[0].1 {
      RunningMinOfAscending(es, i + 1);
      IntermediatesAt(EstimateProgram(s, program), es, |es|, i);
    }
  }

  lemma SameTypesInPlan(w: CostWeights, s: Statistics, program: Pubkey, filters: seq<Filter>)
    ensures forall t :: t in PlanFor(w, s, program, filters).order <==> t in Requested(program, filters)
  {
    hide PlanFor, Requested;
    PlanPermutesRequest(w, s, program, filters);
    forall t ensures t in PlanFor(w, s, program, filters).order <==> t in Requested(program, filters) {
      assert t in Requested(program, filters) <==> t in multiset(Requested(program, filters));
      assert t in PlanFor(w, s, program, filters).order <==> t in multiset(PlanFor(w, s, program, filters).order);
    }
  }

  lemma SortedRequest(s: Statistics, program: Pubkey, filters: seq<Filter>)
    ensures var es := Sorted(Estimates(s, program, filters));
      && es != [] && es[0].1 <= EstimateProgram(s, program)
      && forall i :: 0 <= i < |es| ==> es[i].1 == EstimateOf(s, es[i].0)
  {
    var plain := Estimates(s, program, filters);
    var es := Sorted(plain);
    hide Sorted, Estimates;
    SortedElements(plain);
    EstimatesOfRequest(s, program, filters);
    assert Types(plain)[0] == Program(program) && plain[0] in es && plain[0].1 == EstimateProgram(s, program);
    hide EstimateOf, EstimateProgram, Types;
    var p :| 0 <= p < |es| && es[p] == plain[0];
    assert es[0].1 <= es[p].1;
    forall i | 0 <= i < |es| ensures es[i].1 == EstimateOf(s, es[i].0) {
      assert es[i] in es && es[i] in plain;
    }
  }

  lemma PlanLeadsWithSmallest(w: CostWeights, s: Statistics, program: Pubkey, filters: seq<Filter>)
    ensures var plan := PlanFor(w, s, program, filters); LeadsWithSmallest(s, plan.order, plan.intermediate)
  {
    hide EstimateOf, EstimateProgram, Intermediates, Cost, Estimates, Sorted;
    SortedRequest(s, program, filters);
    LeadIsSmallest(s, program, Sorted(Estimates(s, program, filters)));
  }

  lemma PlanIsSorted(w: CostWeights, s: Statistics, program: Pubkey, filters: seq<Filter>)
    ensures var es, plan := Sorted(Estimates(s, program, filters)), PlanFor(w, s, program, filters);
      && |es| == |plan.order| == |filters| + 1 && plan.order[0] == es[0].0 && es[0].1 == EstimateOf(s, es[0].0)
      && plan.cost == Cost(w, es)
  {
    EstimatesOfRequest(s, program, filters);
    SortedRequest(s, program, filters);
    hide Sorted, Estimates, EstimateOf, Cost, Intermediates;
  }

  lemma SmallestOfRequest(w: CostWeights, s: Statistics, program: Pubkey, filters: seq<Filter>)
    ensures var plan, types := PlanFor(w, s, program, filters), Requested(program, filters);
      && LeadsWithSmallest(s, plan.order, plan.intermediate)
      && (forall t <- types :: plan.intermediate[0] <= EstimateOf(s, t))
      && exists t <- types :: plan.intermediate[0] == EstimateOf(s, t)
  {
    hide EstimateOf, PlanFor, Requested;
    var plan, types := PlanFor(w, s, program, filters), Requested(program, filters);
    PlanLeadsWithSmallest(w, s, program, filters);
    SameTypesInPlan(w, s, program, filters);
    forall t | t in types ensures plan.intermediate[0] <= EstimateOf(s, t) {
      var j :| 0 <= j < |plan.order| && plan.order[j] == t;
    }
    assert plan.order[0] in types;
  }

  /** What a plan costs, from the number of its filters and the smallest of their estimates. */
  lemma PlanCostInNumbers(w: CostWeights, s: Statistics, program: Pubkey, filters: seq<Filter>)
    ensures var plan := PlanFor(w, s, program, filters);
      && |plan.order| == |plan.intermediate| == |filters| + 1
      && var n, m := |plan.order|, plan.intermediate[0];
         && (forall t <- Requested(program, filters) :: m <= EstimateOf(s, t))
         && (exists t <- Requested(program, filters) :: m == EstimateOf(s, t))
         && plan.cost == n * w.lookup + if n > 1 then (n - 1) * m * w.intersection + m * w.memoryAccess else 0
  {
    PlanIsSorted(w, s, program, filters);
    SmallestOfRequest(w, s, program, filters);
    CostOfAscending(w, Sorted(Estimates(s, program, filters)));
    hide Sorted, Estimates, EstimateOf, Cost, PlanFor, Requested;
  }

  /** A program the statistics lack counts as a million accounts: that is the plan's figure when nothing else is
      asked for, and a filter estimated above it comes after the program. */
  lemma UnknownProgramPlan(w: CostWeights, s: Statistics, program: Pubkey, filters: seq<Filter>)
    requires program !in s.program
    ensures PlanFor(w, s, program, []) == Plan([Program(program)], [1_000_000], w.lookup)
    ensures (forall f <- filters :: EstimateFilter(s, f) > 1_000_000) ==>
      var plan := PlanFor(w, s, program, filters); plan.order[0] == Program(program) && plan.intermediate[0] == 1_000_000
  {
    PlanCostInNumbers(w, s, program, []);
    PlanCostInNumbers(w, s, program, filters);
    SameTypesInPlan(w, s, program, []);
    SameTypesInPlan(w, s, program, filters);
    PlanLeadsWithSmallest(w, s, program, []);
    PlanLeadsWithSmallest(w, s, program, filters);
    hide PlanFor;
    assert Requested(program, filters)[0] == Program(program);
    assert Requested(program, []) == [Program(program)];
    var plan := PlanFor(w, s, program, []);
    assert plan.order[0] in Requested(program, []);
    assert plan.order == [plan.order[0]] && plan.intermediate == [plan.intermediate[0]];
    var other := PlanFor(w, s, program, filters);
    assert other.order[0] in Requested(program, filters) && Program(program) in Requested(program, filters);
  }

  /** With the first list at `j` of an order that ascends by estimate, that list is as small as the smallest
      estimate exactly when some real list is. */
  lemma FirstListIsSmallest(h: seq<Event>, s: Statistics, order: seq<FilterType>, j: nat)
    requires j < |order| && TypeAccounts(h, order[j]).Some?
    requires forall i :: 0 <= i < j ==> TypeAccounts(h, order[i]).None?
    requires forall i, k :: 0 <= i < k < |order| ==> EstimateOf(s, order[i]) <= EstimateOf(s, order[k])
    ensures EstimateOf(s, order[j]) <= EstimateOf(s, order[0]) <==> SmallestIsReal(h, s, order)
  {
    hide TypeAccounts, EstimateOf;
    if SmallestIsReal(h, s, order) {
      var t :| t in order && TypeAccounts(h, t).Some? && forall u <- order :: EstimateOf(s, t) <= EstimateOf(s, u);
      var k :| 0 <= k < |order| && order[k] == t;
      assert order[0] in order && j <= k;
    }
    if EstimateOf(s, order[j]) <= EstimateOf(s, order[0]) {
      forall u | u in order ensures EstimateOf(s, order[j]) <= EstimateOf(s, u) {
        var k :| 0 <= k < |order| && order[k] == u;
      }
      assert order[j] in order;
    }
  }

  lemma SameSmallest(h: seq<Event>, s: Statistics, a: seq<FilterType>, b: seq<FilterType>)
    requires forall t :: t in a <==> t in b
    ensures SmallestIsReal(h, s, a) <==> SmallestIsReal(h, s, b)
    ensures NothingIndexed(h, a) <==> NothingIndexed(h, b)
  {
    hide TypeAccounts, EstimateOf;
  }

  /** For every request and fresh statistics the planned figures bound the real intermediate results exactly when
      no requested key is indexed or the smallest estimate belongs to one that is. */
  lemma EstimatesBoundExactly(h: seq<Event>, w: CostWeights, s: Statistics, program: Pubkey, filters: seq<Filter>)
    requires Fresh(s, h)
    ensures var plan, types := PlanFor(w, s, program, filters), Requested(program, filters);
      && |plan.order| == |plan.intermediate|
      && (WithinFigures(h, plan.order, plan.intermediate) <==> NothingIndexed(h, types) || SmallestIsReal(h, s, types))
  {
    hide Fresh, PlanFor, Requested, EstimateOf, SmallestIsReal, NothingIndexed, WithinFigures;
    var plan, types := PlanFor(w, s, program, filters), Requested(program, filters);
    PlanLeadsWithSmallest(w, s, program, filters);
    SameTypesInPlan(w, s, program, filters);
    SameSmallest(h, s, plan.order, types);
    OrderBoundExactly(h, s, plan.order, plan.intermediate);
  }

  lemma OrderBoundExactly(h: seq<Event>, s: Statistics, order: seq<FilterType>, figures: seq<nat>)
    requires Fresh(s, h) && LeadsWithSmallest(s, order, figures)
    ensures WithinFigures(h, order, figures) <==> NothingIndexed(h, order) || SmallestIsReal(h, s, order)
  {
    hide Fresh, TypeAccounts, EstimateOf, SmallestIsReal, Running;
    if NothingIndexed(h, order) {
      forall i | 0 <= i < |order| ensures StepWithin(h, order, figures, i) {
        RunningNotStarted(h, order, i + 1);
      }
    } else {
      var j := FirstListed(h, order);
      FreshEstimate(s, h, order[j]);
      FirstListDecides(h, order, figures, EstimateOf(s, order[0]), j);
      FirstListIsSmallest(h, s, order, j);
    }
  }

  /** So a request with an absent filter key is bounded exactly when all its keys are absent or one lists nobody. */
  lemma AbsentFilterBoundsExactly(h: seq<Event>, w: CostWeights, s: Statistics, program: Pubkey, filters: seq<Filter>,
                                  f: Filter)
    requires Fresh(s, h) && f in filters && FilterAccounts(h, f).None?
    ensures var plan, types := PlanFor(w, s, program, filters), Requested(program, filters);
      && |plan.order| == |plan.intermediate|
      && (WithinFigures(h, plan.order, plan.intermediate) <==>
            NothingIndexed(h, types) || exists t <- types :: TypeAccounts(h, t) == Some([]))
  {
    EstimatesBoundExactly(h, w, s, program, filters);
    var types := Requested(program, filters);
    AbsentIsZero(h, s, f);
    var i :| 0 <= i < |filters| && filters[i] == f;
    assert types[i + 1] == Of(f);
    assert EstimateOf(s, Of(f)) == 0;
    hide PlanFor, Requested, EstimateOf, TypeAccounts, Fresh, WithinFigures;
    forall t | t in types && TypeAccounts(h, t).Some?
      ensures EstimateOf(s, t) == |TypeAccounts(h, t).value|
    {
      FreshEstimate(s, h, t);
    }
  }

  // ---------------------------------------------------------------- the object

  predicate InAll(lists: seq<seq<Pubkey>>, a: Pubkey) {
    forall l <- lists :: a in l
  }

  datatype Kind = SizeKind | MemcmpKind | DiscriminatorKind

  function KindOf(f: Filter): Kind {
    match f
    case DataSize(_) => SizeKind
    case Memcmp(_, _) => MemcmpKind
    case Discriminator(_) => DiscriminatorKind
  }

  predicate PassesAll(h: seq<Event>, filters: seq<Filter>, a: Pubkey) {
    forall f <- filters :: Passes(h, f, a)
  }

  predicate NoneIndexed(h: seq<Event>, filters: seq<Filter>) {
    forall f <- filters :: FilterAccounts(h, f).None?
  }

  lemma AnswerIs(h: seq<Event>, program: Pubkey, filters: seq<Filter>)
    ensures ProgramAccounts(h, program).None? ==> Answer(h, program, filters) == {}
    ensures ProgramAccounts(h, program).Some? ==> forall a: Pubkey ::
      a in Answer(h, program, filters) <==> a in ProgramAccounts(h, program).value && PassesAll(h, filters, a)
  {
  }

  lemma AnswerIsNothing(h: seq<Event>, program: Pubkey, filters: seq<Filter>)
    requires ProgramAccounts(h, program).None?
    ensures K.NoDuplicates<Pubkey>([]) && AsSet([]) == Answer(h, program, filters)
  {
    AnswerIs(h, program, filters);
  }

  lemma AnswerIsIntersection(h: seq<Event>, program: Pubkey, filters: seq<Filter>, lists: seq<seq<Pubkey>>, r: seq<Pubkey>)
    requires ProgramAccounts(h, program).Some?
    requires forall a: Pubkey :: InAll(lists, a) <==> a in ProgramAccounts(h, program).value && PassesAll(h, filters, a)
    requires forall a: Pubkey :: a in AsSet(r) <==> InAll(lists, a)
    ensures AsSet(r) == Answer(h, program, filters)
  {
    AnswerIs(h, program, filters);
    hide Answer, InAll, PassesAll, ProgramAccounts, AsSet;
  }

  lemma OneList(lists: seq<seq<Pubkey>>)
    requires |lists| == 1
    ensures forall a: Pubkey :: InAll(lists, a) <==> a in lists[0]
  {
    assert lists[0] in lists;
  }

  // ---------------------------------------------------------------- walking the pages of a query

  /** `l` is a list that evaluating the query can give: the answer in some order, and in index order when no
      filter is indexed. */
  predicate Evaluation(h: seq<Event>, program: Pubkey, filters: seq<Filter>, l: seq<Pubkey>) {
    && K.NoDuplicates(l) && AsSet(l) == Answer(h, program, filters)
    && (ProgramAccounts(h, program).Some? && NoneIndexed(h, filters) ==> l == ProgramAccounts(h, program).value)
  }

  ghost predicate EveryWalkCovers(h: seq<Event>, program: Pubkey, filters: seq<Filter>, limit: nat) {
    forall lists :: (forall l <- lists :: Evaluation(h, program, filters, l)) && P.Ended(P.Walk(limit, lists, None)) ==>
      P.Covers(P.Walk(limit, lists, None), Answer(h, program, filters))
  }

  lemma EvaluationLists(h: seq<Event>, program: Pubkey, filters: seq<Filter>, l: seq<Pubkey>)
    ensures Evaluation(h, program, filters, l) ==> P.Lists(l, Answer(h, program, filters))
    ensures P.Lists(l, Answer(h, program, filters)) && !NoneIndexed(h, filters) ==> Evaluation(h, program, filters, l)
  {
    hide Answer, ProgramAccounts, NoneIndexed;
    assert (forall a <- l :: a in Answer(h, program, filters)) && (forall a <- Answer(h, program, filters) :: a in l)
      <==> AsSet(l) == Answer(h, program, filters);
  }

  /** Without an indexed filter, over an unchanged history, the paginated walk shows the whole answer, in
      floor(n / limit) + 1 pages. */
  lemma UnfilteredWalkIsComplete(h: seq<Event>, program: Pubkey, filters: seq<Filter>, limit: nat, lists: seq<seq<Pubkey>>)
    requires limit >= 1 && ProgramAccounts(h, program).Some? && NoneIndexed(h, filters)
    requires forall l <- lists :: Evaluation(h, program, filters, l)
    ensures var all, pages := ProgramAccounts(h, program).value, P.Walk(limit, lists, None);
      && (P.Ended(pages) ==> P.Concat(pages) == all && AsSet(all) == Answer(h, program, filters))
      && (|lists| > |all| / limit ==> P.Ended(pages) && |pages| == |all| / limit + 1)
  {
    K.LookupListsMembers(ProgramTrace(h), program);
    hide Answer, ProgramTrace, K.Lookup, P.Walk, P.Concat, P.Ended, K.NoDuplicates;
    var all := ProgramAccounts(h, program).value;
    P.StableWalk(limit, lists, all);
    if lists != [] {
      assert lists[0] in lists;
    } else {
      EmptyWalkNeverEnds(limit);
    }
  }

  lemma EmptyWalkNeverEnds(limit: nat)
    ensures !P.Ended(P.Walk(limit, [], None))
  {
  }

  /** Walking the pages of a query shows its whole answer, in whatever orders it is evaluated, exactly when no
      filter is indexed or the answer fits one page. */
  lemma PaginatedWalkCoversExactly(h: seq<Event>, program: Pubkey, filters: seq<Filter>, limit: nat)
    requires limit >= 1
    ensures EveryWalkCovers(h, program, filters, limit) <==>
      NoneIndexed(h, filters) || |Answer(h, program, filters)| <= limit
  {
    var s := Answer(h, program, filters);
    assert ProgramAccounts(h, program).None? ==> s == {};
    P.WalkCoversExactly(limit, s);
    forall l: seq<Pubkey> ensures Evaluation(h, program, filters, l) ==> P.Lists(l, s) {
      EvaluationLists(h, program, filters, l);
    }
    hide Answer, Evaluation, P.Lists, P.Walk, P.Ended, P.Covers, NoneIndexed;
    if |s| <= limit {
      CoversWhenSmall(h, program, filters, limit);
    } else if NoneIndexed(h, filters) {
      CoversWhenUnfiltered(h, program, filters, limit);
    } else if EveryWalkCovers(h, program, filters, limit) {
      forall lists | P.AllList(lists, s) && P.Ended(P.Walk(limit, lists, None))
        ensures P.Covers(P.Walk(limit, lists, None), s)
      {
        forall l | l in lists ensures Evaluation(h, program, filters, l) {
          EvaluationLists(h, program, filters, l);
        }
      }
    }
  }

  lemma CoversWhenSmall(h: seq<Event>, program: Pubkey, filters: seq<Filter>, limit: nat)
    requires |Answer(h, program, filters)| <= limit
    ensures EveryWalkCovers(h, program, filters, limit)
  {
    var s := Answer(h, program, filters);
    hide Answer, Evaluation, P.Lists, P.Walk, P.Covers;
    forall lists | (forall l <- lists :: Evaluation(h, program, filters, l)) && P.Ended(P.Walk(limit, lists, None))
      ensures P.Covers(P.Walk(limit, lists, None), s)
    {
      forall l | l in lists ensures P.Lists(l, s) {
        EvaluationLists(h, program, filters, l);
      }
      if lists == [] {
        EmptyWalkNeverEnds(limit);
      } else {
        P.SmallResultFitsFirstPage(limit, lists, s);
      }
    }
  }

  lemma CoversWhenUnfiltered(h: seq<Event>, program: Pubkey, filters: seq<Filter>, limit: nat)
    requires limit >= 1 && ProgramAccounts(h, program).Some? && NoneIndexed(h, filters)
    ensures EveryWalkCovers(h, program, filters, limit)
  {
    var s := Answer(h, program, filters);
    hide Answer, Evaluation, P.Walk, ProgramAccounts, NoneIndexed;
    forall lists | (forall l <- lists :: Evaluation(h, program, filters, l)) && P.Ended(P.Walk(limit, lists, None))
      ensures P.Covers(P.Walk(limit, lists, None), s)
    {
      UnfilteredWalkIsComplete(h, program, filters, limit, lists);
    }
  }

  /** Turns a hash set into a list, in whatever order it iterates. */
  method Drain(s: set<Pubkey>) returns (r: seq<Pubkey>)
    ensures K.NoDuplicates(r) && AsSet(r) == s
  {
    r := [];
    var todo := s;
    while todo != {}
      invariant K.NoDuplicates(r) && AsSet(r) + todo == s && AsSet(r) !! todo
      decreases todo
    {
      var a :| a in todo;
      assert AsSet(r + [a]) == AsSet(r) + {a};
      r := r + [a];
      todo := todo - {a};
    }
  }

  class Planner {
    const manager: Manager
    const costModel: QueryCostModel
    const defaultLimit: nat
    var queriesPlanned: nat
    var totalExecutionTime: nat

    constructor (manager: Manager, defaultLimit: nat := 100)
      ensures this.manager == manager && this.defaultLimit == defaultLimit && fresh(costModel)
      ensures queriesPlanned == 0 && totalExecutionTime == 0
      ensures costModel.weights == CostWeights(10, 1, 2) && costModel.stats == Statistics(map[], map[], map[], map[], 0)
    {
      this.manager, this.defaultLimit := manager, defaultLimit;
      costModel := new QueryCostModel();
      queriesPlanned, totalExecutionTime := 0, 0;
    }

    /** Looks up one filter in its index. */
    method FindFilter(f: Filter) returns (r: Option<seq<Pubkey>>)
      requires manager.Valid()
      ensures r == FilterAccounts(manager.history, f)
    {
      hide K.Lookup;
      match f
      case DataSize(size) =>
        r := manager.sizeIndex.GetAccounts(size);
      case Memcmp(offset, bytes) =>
        r := manager.memcmpIndex.GetAccounts(MemKey(offset, bytes));
      case Discriminator(disc) =>
        r := manager.discriminatorIndex.GetAccounts(disc);
    }

    /** One of the three passes of `execute_query`: the lists of the indexed filters of one kind. */
    method CollectKind(filters: seq<Filter>, kind: Kind, before: seq<seq<Pubkey>>) returns (lists: seq<seq<Pubkey>>)
      requires manager.Valid()
      ensures before <= lists
      ensures |lists| == |before| <==>
        forall f <- filters :: KindOf(f) == kind ==> FilterAccounts(manager.history, f).None?
      ensures forall a: Pubkey :: InAll(lists, a) <==>
        InAll(before, a) && forall f <- filters :: KindOf(f) == kind ==> Passes(manager.history, f, a)
    {
      lists := before;
      for i := 0 to |filters|
        invariant before <= lists
        invariant |lists| == |before| <==>
          forall f <- filters[..i] :: KindOf(f) == kind ==> FilterAccounts(manager.history, f).None?
        invariant forall a: Pubkey :: InAll(lists, a) <==>
          InAll(before, a) && forall f <- filters[..i] :: KindOf(f) == kind ==> Passes(manager.history, f, a)
      {
        assert filters[..i + 1] == filters[..i] + [filters[i]];
        if KindOf(filters[i]) == kind {
          var accounts := FindFilter(filters[i]);
          if accounts.Some? {
            forall a: Pubkey ensures InAll(lists + [accounts.value], a) <==> InAll(lists, a) && a in accounts.value {
              InAllSnoc(lists, accounts.value, a);
            }
            lists := lists + [accounts.value];
          }
        }
      }
      assert filters[..|filters|] == filters;
    }

    /** Intersects the lists, starting from the first. */
    method IntersectAll(lists: seq<seq<Pubkey>>) returns (r: set<Pubkey>)
      requires lists != []
      ensures forall a :: a in r <==> InAll(lists, a)
    {
      r := AsSet(lists[0]);
      for i := 1 to |lists|
        invariant forall a :: a in r <==> forall j :: 0 <= j < i ==> a in lists[j]
      {
        r := r * AsSet(lists[i]);
      }
    }

    /** The three passes over the filters, by kind. */
    method CollectAll(filters: seq<Filter>, programAccounts: seq<Pubkey>) returns (lists: seq<seq<Pubkey>>)
      requires manager.Valid()
      ensures lists != [] && lists[0] == programAccounts
      ensures |lists| == 1 <==> NoneIndexed(manager.history, filters)
      ensures forall a: Pubkey :: InAll(lists, a) <==> a in programAccounts && PassesAll(manager.history, filters, a)
    {
      hide FilterAccounts;
      hide Passes;
      lists := [programAccounts];
      assert forall a: Pubkey :: InAll(lists, a) <==> a in lists[0];
      lists := CollectKind(filters, SizeKind, lists);
      lists := CollectKind(filters, MemcmpKind, lists);
      lists := CollectKind(filters, DiscriminatorKind, lists);
      assert forall f <- filters :: KindOf(f) == SizeKind || KindOf(f) == MemcmpKind || KindOf(f) == DiscriminatorKind;
    }

    /** `execute_query`. */
    method ExecuteQuery(program: Pubkey, filters: seq<Filter>) returns (r: seq<Pubkey>)
      requires manager.Valid()
      modifies this
      ensures K.NoDuplicates(r) && AsSet(r) == Answer(manager.history, program, filters)
      ensures ProgramAccounts(manager.history, program).Some? && NoneIndexed(manager.history, filters) ==>
        r == ProgramAccounts(manager.history, program).value
      ensures var counted := ProgramAccounts(manager.history, program).Some? && !NoneIndexed(manager.history, filters);
        && queriesPlanned == old(queriesPlanned) + (if counted then 1 else 0)
        && totalExecutionTime == old(totalExecutionTime) + (if counted then 10 * |r| else 0)
    {
      hide *;
      var programAccounts := ListProgram(program);
      if programAccounts.None? {
        AnswerIsNothing(manager.history, program, filters);
        return [];
      }
      var lists := CollectAll(filters, programAccounts.value);
      r := Combine(lists);
      AnswerIsIntersection(manager.history, program, filters, lists, r);
    }

    /** The lookup in the program index. */
    method ListProgram(program: Pubkey) returns (r: Option<seq<Pubkey>>)
      requires manager.Valid()
      ensures r == ProgramAccounts(manager.history, program) && (r.Some? ==> K.NoDuplicates(r.value))
    {
      r := manager.programIndex.GetAccounts(program);
      K.LookupListsMembers(ProgramTrace(manager.history), program);
    }

    /** The end of `execute_query`: a lone list is the result as it stands, several are intersected. */
    method Combine(lists: seq<seq<Pubkey>>) returns (r: seq<Pubkey>)
      requires lists != [] && K.NoDuplicates(lists[0])
      modifies this
      ensures K.NoDuplicates(r) && forall a: Pubkey :: a in AsSet(r) <==> InAll(lists, a)
      ensures |lists| == 1 ==> r == lists[0]
      ensures queriesPlanned == old(queriesPlanned) + (if |lists| == 1 then 0 else 1)
      ensures totalExecutionTime == old(totalExecutionTime) + (if |lists| == 1 then 0 else 10 * |r|)
    {
      if |lists| == 1 {
        OneList(lists);
        return lists[0];
      }
      hide InAll, K.NoDuplicates;
      var resultSet := IntersectAll(lists);
      r := Drain(resultSet);
      DrainedSize(r);
      queriesPlanned := queriesPlanned + 1;
      totalExecutionTime := totalExecutionTime + |resultSet| * 10;
    }

    /** `execute_query_optimized`. */
    method ExecuteQueryOptimized(program: Pubkey, filters: seq<Filter>) returns (r: seq<Pubkey>)
      requires manager.Valid()
      modifies this
      ensures var plan := PlanFor(costModel.weights, costModel.stats, program, filters);
        && K.NoDuplicates(r) && AsSet(r) == PlannedAnswer(manager.history, plan.order)
        && totalExecutionTime == old(totalExecutionTime) + plan.cost
      ensures ProgramAccounts(manager.history, program).Some? ==> AsSet(r) == Answer(manager.history, program, filters)
      ensures queriesPlanned == old(queriesPlanned) + 1
    {
      hide K.Lookup;
      hide PlanFor;
      hide Answer;
      var plan := costModel.CreateOptimizedPlan(program, filters);
      if ProgramAccounts(manager.history, program).Some? {
        StatisticsDoNotMatter(manager.history, costModel.weights, costModel.stats, program, filters);
      }
      var resultSet: Option<set<Pubkey>> := None;
      for i := 0 to |plan.order|
        invariant resultSet == Running(manager.history, plan.order, i)
        invariant queriesPlanned == old(queriesPlanned) && totalExecutionTime == old(totalExecutionTime)
        invariant manager.Valid()
      {
        var accounts;
        match plan.order[i] {
          case Program(id) => accounts := manager.programIndex.GetAccounts(id);
          case Of(f) => accounts := FindFilter(f);
        }
        if accounts.Some? {
          var accountSet := AsSet(accounts.value);
          resultSet := Some(if resultSet.Some? then resultSet.value * accountSet else accountSet);
        }
      }
      r := Drain(OrDefault(resultSet));
      queriesPlanned := queriesPlanned + 1;
      totalExecutionTime := totalExecutionTime + plan.cost;
    }

    /** `execute_query_paginated`: runs the whole query again, then cuts out one page. */
    method ExecuteQueryPaginated(program: Pubkey, filters: seq<Filter>, cursor: Option<P.Cursor>)
      returns (page: P.Page, ghost all: seq<Pubkey>)
      requires manager.Valid()
      modifies this
      ensures Evaluation(manager.history, program, filters, all)
      ensures page == P.Paginate(defaultLimit, all, cursor)
      ensures page.totalCount == |Answer(manager.history, program, filters)|
      ensures page.isLastPage <==> |page.results| < if cursor.None? then defaultLimit else cursor.value.limit
    {
      var results := ExecuteQuery(program, filters);
      all := results;
      page := P.Paginate(defaultLimit, results, cursor);
      P.PageReports(defaultLimit, results, cursor);
      DistinctSize(results);
      hide Answer, P.Paginate, K.NoDuplicates;
    }
  }

  lemma InAllSnoc(lists: seq<seq<Pubkey>>, l: seq<Pubkey>, a: Pubkey)
    ensures InAll(lists + [l], a) <==> InAll(lists, a) && a in l
  {
    assert l in lists + [l];
    assert forall x <- lists :: x in lists + [l];
  }

  lemma {:induction false} DrainedSize(r: seq<Pubkey>)
    requires K.NoDuplicates(r)
    ensures |AsSet(r)| == |r|
  {
    if r != [] {
      DrainedSize(r[1..]);
      assert AsSet(r) == {r[0]} + AsSet(r[1..]);
    }
  }
}
