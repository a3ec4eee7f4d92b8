/**
 Which materialized query results an account change makes stale. The tracker's calls take their
 locks in several sections, so the state machine below has one action per section.
 */
module Invalidation {
  import opened Bytes
  import opened Wrappers

  /** The 32-byte digest of a query. */
  datatype Hash = Hash(digest: Pubkey)

  /** `open` holds the registrations whose second section has not run yet. */
  datatype State<R> = State(
    queryPubkeys: map<Hash, set<Pubkey>>,
    pubkeyQueries: map<Pubkey, set<Hash>>,
    cache: map<Hash, R>,
    open: map<Hash, set<Pubkey>>)

  datatype Action<R> =
    | RegisterQuery(q: Hash, ps: set<Pubkey>)
    | RegisterPubkeys(q: Hash, ps: set<Pubkey>)
    | Remove(affected: set<Hash>)
    | Store(q: Hash, result: R)

  function Elements(s: seq<Pubkey>): set<Pubkey> {
    set p <- s
  }

  function Empty<R>(): State<R> {
    State(map[], map[], map[], map[])
  }

  function QueriesOf(index: map<Pubkey, set<Hash>>, p: Pubkey): set<Hash> {
    if p in index then index[p] else {}
  }

  function Linked(index: map<Pubkey, set<Hash>>, q: Hash, ps: set<Pubkey>): map<Pubkey, set<Hash>> {
    map p | p in index.Keys + ps :: if p in ps then QueriesOf(index, p) + {q} else index[p]
  }

  /** The queries among `affected` whose registration names `p`. */
  function Unlinked(registered: map<Hash, set<Pubkey>>, affected: set<Hash>, p: Pubkey): set<Hash> {
    set q | q in affected && q in registered && p in registered[q]
  }

  function Cleaned(index: map<Pubkey, set<Hash>>, registered: map<Hash, set<Pubkey>>, affected: set<Hash>)
    : map<Pubkey, set<Hash>>
  {
    map p | p in index && index[p] - Unlinked(registered, affected, p) != {} ::
      index[p] - Unlinked(registered, affected, p)
  }

  function Apply<R>(s: State<R>, a: Action<R>): State<R> {
    match a
    case RegisterQuery(q, ps) =>
      s.(queryPubkeys := s.queryPubkeys[q := ps], open := s.open[q := ps])
    case RegisterPubkeys(q, ps) =>
      s.(pubkeyQueries := Linked(s.pubkeyQueries, q, ps),
         open := if q in s.open && s.open[q] == ps then s.open - {q} else s.open)
    case Remove(affected) =>
      s.(cache := s.cache - affected,
         queryPubkeys := s.queryPubkeys - affected,
         pubkeyQueries := Cleaned(s.pubkeyQueries, s.queryPubkeys, affected))
    case Store(q, result) =>
      s.(cache := s.cache[q := result])
  }

  function Exec<R>(run: seq<Action<R>>): State<R> {
    if run == [] then Empty() else Apply(Exec(run[..|run| - 1]), run[|run| - 1])
  }

  function Affected<R>(s: State<R>, ps: set<Pubkey>): set<Hash> {
    set p, q | p in ps && p in s.pubkeyQueries && q in s.pubkeyQueries[p] :: q
  }

  /** A whole `register_query` call and a whole `invalidate_for_pubkeys` call. */
  function Register<R>(s: State<R>, q: Hash, ps: set<Pubkey>): State<R> {
    Apply(Apply(s, RegisterQuery(q, ps)), RegisterPubkeys(q, ps))
  }

  function Invalidate<R>(s: State<R>, ps: set<Pubkey>): State<R> {
    Apply(s, Remove(Affected(s, ps)))
  }

  // ---------------------------------------------------------------- the two indexes agree

  ghost predicate LinkInv<R>(s: State<R>) {
    && (forall q, p :: q in s.queryPubkeys && q !in s.open && p in s.queryPubkeys[q] ==> q in QueriesOf(s.pubkeyQueries, p))
    && (forall q :: q in s.queryPubkeys && q in s.open ==> s.open[q] == s.queryPubkeys[q])
    && (forall p :: p in s.pubkeyQueries ==> s.pubkeyQueries[p] != {})
  }

  lemma PubkeysSectionKeepsLinks<R>(s: State<R>, q: Hash, ps: set<Pubkey>)
    requires LinkInv(s)
    ensures LinkInv(Apply(s, RegisterPubkeys(q, ps)))
  {
    var t := Apply(s, RegisterPubkeys(q, ps));
    forall p | p in t.pubkeyQueries ensures t.pubkeyQueries[p] != {} {
      assert p in ps ==> q in t.pubkeyQueries[p];
    }
    forall x, p | x in t.queryPubkeys && x !in t.open && p in t.queryPubkeys[x]
      ensures x in QueriesOf(t.pubkeyQueries, p)
    {
      assert x !in s.open ==> x in QueriesOf(s.pubkeyQueries, p);
    }
  }

  lemma RemoveKeepsLinks<R>(s: State<R>, affected: set<Hash>)
    requires LinkInv(s)
    ensures LinkInv(Apply(s, Remove(affected)))
  {
    var t := Apply(s, Remove(affected));
    forall q, p | q in t.queryPubkeys && q !in t.open && p in t.queryPubkeys[q]
      ensures q in QueriesOf(t.pubkeyQueries, p)
    {
      assert q in QueriesOf(s.pubkeyQueries, p);
      assert q in s.pubkeyQueries[p] - Unlinked(s.queryPubkeys, affected, p);
    }
  }

  lemma ApplyKeepsLinks<R>(s: State<R>, a: Action<R>)
    requires LinkInv(s)
    ensures LinkInv(Apply(s, a))
  {
    match a
    case RegisterQuery(q, ps) =>
    case RegisterPubkeys(q, ps) => PubkeysSectionKeepsLinks(s, q, ps);
    case Remove(affected) => RemoveKeepsLinks(s, affected);
    case Store(_, _) =>
  }

  /** However the sections of concurrent calls interleave: every account of a completely registered
      query leads back to it, and no account leads to an empty set. */
  lemma {:induction false} RunKeepsLinks<R>(run: seq<Action<R>>)
    ensures LinkInv(Exec(run))
  {
    if run != [] {
      RunKeepsLinks(run[..|run| - 1]);
      ApplyKeepsLinks(Exec(run[..|run| - 1]), run[|run| - 1]);
    }
  }

  /** An account leads only to queries registered for it. */
  ghost predicate NoStrayLinks<R>(s: State<R>) {
    forall p, q :: p in s.pubkeyQueries && q in s.pubkeyQueries[p] ==> q in s.queryPubkeys && p in s.queryPubkeys[q]
  }

  /** Registering a query again leaves no stray link exactly when the new accounts cover the old ones. */
  lemma RegisterStraysExactly<R>(s: State<R>, q: Hash, ps: set<Pubkey>)
    requires LinkInv(s) && NoStrayLinks(s) && q !in s.open
    ensures NoStrayLinks(Register(s, q, ps)) <==> (q in s.queryPubkeys ==> s.queryPubkeys[q] <= ps)
  {
    var t := Register(s, q, ps);
    if q in s.queryPubkeys && !(s.queryPubkeys[q] <= ps) {
      var p :| p in s.queryPubkeys[q] && p !in ps;
      assert q in QueriesOf(s.pubkeyQueries, p);
      assert q in t.pubkeyQueries[p] && t.queryPubkeys[q] == ps;
      assert !NoStrayLinks(t);
    } else {
      forall p, x | p in t.pubkeyQueries && x in t.pubkeyQueries[p]
        ensures x in t.queryPubkeys && p in t.queryPubkeys[x]
      {
        assert !(x == q && p in ps) ==> x in s.pubkeyQueries[p];
      }
      assert NoStrayLinks(t);
    }
  }

  lemma InvalidateKeepsNoStrays<R>(s: State<R>, ps: set<Pubkey>)
    requires NoStrayLinks(s)
    ensures NoStrayLinks(Invalidate(s, ps))
  {
    var affected := Affected(s, ps);
    var t := Invalidate(s, ps);
    forall p, q | p in t.pubkeyQueries && q in t.pubkeyQueries[p]
      ensures q in t.queryPubkeys && p in t.queryPubkeys[q]
    {
      assert q !in Unlinked(s.queryPubkeys, affected, p);
    }
  }

  // ---------------------------------------------------------------- when a result stays removable

  function ExecFrom<R>(s: State<R>, run: seq<Action<R>>): State<R> {
    if run == [] then s else Apply(ExecFrom(s, run[..|run| - 1]), run[|run| - 1])
  }

  predicate Registers<R>(a: Action<R>, q: Hash) {
    (a.RegisterQuery? || a.RegisterPubkeys?) && a.q == q
  }

  predicate Drops<R>(a: Action<R>, q: Hash) {
    a.Remove? && q in a.affected
  }

  /** Some removal in the run takes `q` out. */
  predicate DroppedIn<R>(run: seq<Action<R>>, q: Hash) {
    run != [] && (DroppedIn(run[..|run| - 1], q) || Drops(run[|run| - 1], q))
  }

  ghost predicate NoneRegisters<R>(run: seq<Action<R>>, q: Hash) {
    forall a <- run :: !Registers(a, q)
  }

  lemma NoneRegistersPrefix<R>(run: seq<Action<R>>, q: Hash)
    requires run != [] && NoneRegisters(run, q)
    ensures NoneRegisters(run[..|run| - 1], q) && !Registers(run[|run| - 1], q)
  {
    assert forall a <- run[..|run| - 1] :: a in run;
    assert run[|run| - 1] in run;
  }

  lemma {:induction false} RegistrationSurvives<R>(s: State<R>, run: seq<Action<R>>, q: Hash)
    requires NoneRegisters(run, q)
    ensures var t := ExecFrom(s, run);
      && (q in t.queryPubkeys <==> q in s.queryPubkeys && !DroppedIn(run, q))
      && (q in t.queryPubkeys ==> t.queryPubkeys[q] == s.queryPubkeys[q])
  {
    if run != [] {
      NoneRegistersPrefix(run, q);
      RegistrationSurvives(s, run[..|run| - 1], q);
    }
  }

  lemma LinkStep<R>(s: State<R>, a: Action<R>, q: Hash, p: Pubkey)
    requires !Registers(a, q)
    ensures q in QueriesOf(Apply(s, a).pubkeyQueries, p) <==>
      q in QueriesOf(s.pubkeyQueries, p) && !(Drops(a, q) && q in s.queryPubkeys && p in s.queryPubkeys[q])
  {
    if a.Remove? {
      assert q in Unlinked(s.queryPubkeys, a.affected, p) <==>
        q in a.affected && q in s.queryPubkeys && p in s.queryPubkeys[q];
    }
  }

  /** A registration links its query from each of its accounts, and changes no other link. */
  lemma RegisterLinks<R>(s: State<R>, q: Hash, ps: set<Pubkey>, x: Hash, p: Pubkey)
    ensures var t := Register(s, q, ps);
      && (x in QueriesOf(t.pubkeyQueries, p) <==> x in QueriesOf(s.pubkeyQueries, p) || (x == q && p in ps))
      && t.queryPubkeys == s.queryPubkeys[q := ps] && t.cache == s.cache
  {
  }

  /** An invalidation takes out of the cache exactly the queries that one of the accounts leads to. */
  lemma InvalidateDrops<R>(s: State<R>, ps: set<Pubkey>, x: Hash)
    ensures var t := Invalidate(s, ps);
      && (x in t.cache <==> x in s.cache && forall p <- ps :: x !in QueriesOf(s.pubkeyQueries, p))
      && (x in t.cache ==> t.cache[x] == s.cache[x])
  {
    assert forall p <- ps :: x in QueriesOf(s.pubkeyQueries, p) ==> p in s.pubkeyQueries && x in Affected(s, ps);
  }

  /** A link goes with the first removal of its query that finds the query still registered. */
  lemma {:induction false} LinkSurvives<R>(s: State<R>, run: seq<Action<R>>, q: Hash, p: Pubkey)
    requires NoneRegisters(run, q) && q in QueriesOf(s.pubkeyQueries, p)
    requires q in s.queryPubkeys ==> p in s.queryPubkeys[q]
    ensures q in QueriesOf(ExecFrom(s, run).pubkeyQueries, p) <==> !(q in s.queryPubkeys && DroppedIn(run, q))
  {
    if run != [] {
      var front, a := run[..|run| - 1], run[|run| - 1];
      NoneRegistersPrefix(run, q);
      LinkSurvives(s, front, q, p);
      RegistrationSurvives(s, front, q);
      LinkStep(ExecFrom(s, front), a, q, p);
      hide Apply, QueriesOf, Registers, Drops, NoneRegisters;
    }
  }

  /** The two sections of a registration with whatever other calls do in between and afterwards. */
  function RegisterAround<R>(s: State<R>, q: Hash, ps: set<Pubkey>, mid: seq<Action<R>>, after: seq<Action<R>>): State<R> {
    ExecFrom(Apply(ExecFrom(Apply(s, RegisterQuery(q, ps)), mid), RegisterPubkeys(q, ps)), after)
  }

  /** After the last registration of `q`, a change of one of its accounts still reaches it exactly when no
      removal dropped `q` since, or one already did between the two sections of the registration. */
  lemma ReachedExactly<R>(s: State<R>, q: Hash, ps: set<Pubkey>, mid: seq<Action<R>>, after: seq<Action<R>>, p: Pubkey)
    requires p in ps && NoneRegisters(mid, q) && NoneRegisters(after, q)
    ensures q in Affected(RegisterAround(s, q, ps, mid, after), {p}) <==> DroppedIn(mid, q) || !DroppedIn(after, q)
  {
    var s1 := Apply(s, RegisterQuery(q, ps));
    RegistrationSurvives(s1, mid, q);
    var s2 := ExecFrom(s1, mid);
    var s3 := Apply(s2, RegisterPubkeys(q, ps));
    assert s3.queryPubkeys == s2.queryPubkeys && q in QueriesOf(s3.pubkeyQueries, p);
    LinkSurvives(s3, after, q, p);
    var t := ExecFrom(s3, after);
    assert q in Affected(t, {p}) <==> q in QueriesOf(t.pubkeyQueries, p);
  }

  /** So a result stored at the end stays removable exactly when nothing dropped its query since registering. */
  lemma StoredIsRemovableExactly<R>(s: State<R>, q: Hash, ps: set<Pubkey>, between: seq<Action<R>>, result: R, p: Pubkey)
    requires p in ps && NoneRegisters(between, q)
    ensures var t := Apply(RegisterAround(s, q, ps, [], between), Store(q, result));
      && q in t.cache && t.cache[q] == result
      && (q in Invalidate(t, {p}).cache <==> DroppedIn(between, q))
  {
    ReachedExactly(s, q, ps, [], between, p);
    var u := RegisterAround(s, q, ps, [], between);
    var t := Apply(u, Store(q, result));
    assert t.pubkeyQueries == u.pubkeyQueries;
    assert Affected(t, {p}) == Affected(u, {p});
  }

  /** Registering, then losing the race to an invalidation before the result is stored, leaves a
      result that no later invalidation removes. */
  lemma StoringAfterInvalidationSticks<R>(q: Hash, p: Pubkey, result: R, later: set<Pubkey>)
    ensures var s := Apply(Invalidate(Register(Empty(), q, {p}), {p}), Store(q, result));
      q in s.cache && s.cache[q] == result && q in Invalidate(s, later).cache
  {
    var r := Register(Empty<R>(), q, {p});
    assert q in r.pubkeyQueries[p];
    assert q in Affected(r, {p});
    var s := Apply(Invalidate(r, {p}), Store(q, result));
    assert s.pubkeyQueries == map[];
  }

  // ---------------------------------------------------------------- one query at a time

  function CleanedFor(index: map<Pubkey, set<Hash>>, q: Hash, ps: set<Pubkey>): map<Pubkey, set<Hash>> {
    map p | p in index && !(p in ps && index[p] - {q} == {}) :: if p in ps then index[p] - {q} else index[p]
  }

  lemma CleanedForOne(index: map<Pubkey, set<Hash>>, registered: map<Hash, set<Pubkey>>, q: Hash)
    requires forall p :: p in index ==> index[p] != {}
    ensures Cleaned(index, registered, {q}) == if q in registered then CleanedFor(index, q, registered[q]) else index
  {
    var one := Cleaned(index, registered, {q});
    var other := if q in registered then CleanedFor(index, q, registered[q]) else index;
    forall p: Pubkey ensures (p in one <==> p in other) && (p in one ==> one[p] == other[p]) {
      assert Unlinked(registered, {q}, p) == if q in registered && p in registered[q] then {q} else {};
      assert p in index ==> index[p] - {} == index[p];
    }
  }

  lemma CleanedForNone(index: map<Pubkey, set<Hash>>, registered: map<Hash, set<Pubkey>>)
    requires forall p :: p in index ==> index[p] != {}
    ensures Cleaned(index, registered, {}) == index
  {
    var none := Cleaned(index, registered, {});
    forall p: Pubkey ensures (p in none <==> p in index) && (p in none ==> none[p] == index[p]) {
      assert Unlinked(registered, {}, p) == {};
      assert p in index ==> index[p] - {} == index[p];
    }
  }

  lemma CleanedForNobody(index: map<Pubkey, set<Hash>>, q: Hash)
    ensures CleanedFor(index, q, {}) == index
  {
  }

  /** What unlinking one more account does to the index. */
  lemma CleanedForStep(index: map<Pubkey, set<Hash>>, q: Hash, ps: set<Pubkey>, p: Pubkey)
    requires p !in ps
    ensures var m, n := CleanedFor(index, q, ps), CleanedFor(index, q, ps + {p});
      n == if p !in m then m else if m[p] - {q} == {} then m - {p} else m[p := m[p] - {q}]
  {
  }

  lemma UnlinkedTogether(registered: map<Hash, set<Pubkey>>, done: set<Hash>, q: Hash, p: Pubkey)
    requires q !in done
    ensures Unlinked(registered, done + {q}, p) ==
            Unlinked(registered, done, p) + Unlinked(registered - done, {q}, p)
  {
  }

  lemma RemoveNobody<R>(s: State<R>)
    requires LinkInv(s)
    ensures Apply(s, Remove({})) == s
  {
    CleanedForNone(s.pubkeyQueries, s.queryPubkeys);
    assert s.cache - {} == s.cache && s.queryPubkeys - {} == s.queryPubkeys;
  }

  /** Removing queries one at a time is removing them together. */
  lemma RemoveOne<R>(s: State<R>, done: set<Hash>, q: Hash)
    requires LinkInv(s) && q !in done
    ensures Apply(Apply(s, Remove(done)), Remove({q})) == Apply(s, Remove(done + {q}))
  {
    var registered := s.queryPubkeys;
    assert registered - done - {q} == registered - (done + {q});
    assert s.cache - done - {q} == s.cache - (done + {q});
    var one := Cleaned(Cleaned(s.pubkeyQueries, registered, done), registered - done, {q});
    var both := Cleaned(s.pubkeyQueries, registered, done + {q});
    assert one == both by {
      hide LinkInv;
      forall p: Pubkey ensures (p in one <==> p in both) && (p in one ==> one[p] == both[p]) {
        UnlinkedTogether(registered, done, q, p);
        hide Unlinked;
      }
    }
  }

  // ---------------------------------------------------------------- the object

  lemma LinkedNone(index: map<Pubkey, set<Hash>>, q: Hash)
    ensures Linked(index, q, {}) == index
  {
  }

  lemma LinkedStep(index: map<Pubkey, set<Hash>>, q: Hash, ps: set<Pubkey>, p: Pubkey)
    ensures var m := Linked(index, q, ps);
      Linked(index, q, ps + {p}) == m[p := (if p in m then m[p] else {}) + {q}]
  {
    var m := Linked(index, q, ps);
    assert p in ps ==> QueriesOf(index, p) + {q} + {q} == QueriesOf(index, p) + {q};
  }

  class Tracker<R(!new)> {
    var queryPubkeys: map<Hash, set<Pubkey>>
    var pubkeyQueries: map<Pubkey, set<Hash>>
    var materialized: map<Hash, R>

    ghost function Value(): State<R>
      reads this
    {
      State(queryPubkeys, pubkeyQueries, materialized, map[])
    }

    ghost predicate Valid()
      reads this
    {
      LinkInv(Value())
    }

    constructor ()
      ensures Valid() && Value() == Empty()
    {
      queryPubkeys, pubkeyQueries, materialized := map[], map[], map[];
    }

    method RegisterQuery(q: Hash, pubkeys: seq<Pubkey>)
      requires Valid()
      modifies this
      ensures Valid() && Value() == Register(old(Value()), q, Elements(pubkeys))
    {
      ghost var ps := Elements(pubkeys);
      ghost var first := Apply(Value(), Action<R>.RegisterQuery(q, ps));
      ApplyKeepsLinks(Value(), Action<R>.RegisterQuery(q, ps));
      ApplyKeepsLinks(first, RegisterPubkeys(q, ps));
      queryPubkeys := queryPubkeys[q := Elements(pubkeys)];
      LinkAll(q, pubkeys);
    }

    method LinkAll(q: Hash, pubkeys: seq<Pubkey>)
      modifies this`pubkeyQueries
      ensures pubkeyQueries == Linked(old(pubkeyQueries), q, Elements(pubkeys))
    {
      assert Elements(pubkeys[..0]) == {};
      LinkedNone(pubkeyQueries, q);
      hide Linked;
      var i := 0;
      while i < |pubkeys|
        invariant i <= |pubkeys|
        invariant pubkeyQueries == Linked(old(pubkeyQueries), q, Elements(pubkeys[..i]))
      {
        var p := pubkeys[i];
        assert Elements(pubkeys[..i + 1]) == Elements(pubkeys[..i]) + {p};
        LinkedStep(old(pubkeyQueries), q, Elements(pubkeys[..i]), p);
        pubkeyQueries := pubkeyQueries[p := (if p in pubkeyQueries then pubkeyQueries[p] else {}) + {q}];
        i := i + 1;
      }
      assert pubkeys[..i] == pubkeys;
    }

    method GetAffectedQueriesBatch(pubkeys: seq<Pubkey>) returns (affected: set<Hash>)
      ensures affected == Affected(Value(), Elements(pubkeys))
      ensures forall q :: q in affected <==> exists p <- pubkeys :: p in pubkeyQueries && q in pubkeyQueries[p]
    {
      affected := {};
      var i := 0;
      while i < |pubkeys|
        invariant i <= |pubkeys|
        invariant affected == Affected(Value(), Elements(pubkeys[..i]))
      {
        var p := pubkeys[i];
        assert Elements(pubkeys[..i + 1]) == Elements(pubkeys[..i]) + {p};
        if p in pubkeyQueries {
          affected := affected + pubkeyQueries[p];
        }
        i := i + 1;
      }
      assert pubkeys[..i] == pubkeys;
    }

    method InvalidateForPubkeys(pubkeys: seq<Pubkey>) returns (count: nat)
      requires Valid()
      modifies this
      ensures Valid() && Value() == Invalidate(old(Value()), Elements(pubkeys))
      ensures count == |Affected(old(Value()), Elements(pubkeys))|
    {
      var affected := GetAffectedQueriesBatch(pubkeys);
      RemoveAll(affected);
      count := |affected|;
    }

    method RemoveAll(affected: set<Hash>)
      requires Valid()
      modifies this
      ensures Valid() && Value() == Apply(old(Value()), Remove(affected))
    {
      ghost var was := Value();
      RemoveNobody(was);
      hide Apply, LinkInv, Cleaned;
      var todo := affected;
      assert affected - todo == {};
      while todo != {}
        invariant todo <= affected && LinkInv(was) && Valid()
        invariant Value() == Apply(was, Remove(affected - todo))
        decreases |todo|
      {
        var q :| q in todo;
        RemoveOne(was, affected - todo, q);
        assert affected - (todo - {q}) == affected - todo + {q};
        DropQuery(q);
        todo := todo - {q};
      }
      assert affected - todo == affected;
    }

    /** The loop body of an invalidation: one query leaves the cache and both indexes. */
    method DropQuery(q: Hash)
      requires Valid()
      modifies this
      ensures Valid() && Value() == Apply(old(Value()), Remove({q}))
    {
      RemoveKeepsLinks(Value(), {q});
      CleanedForOne(pubkeyQueries, queryPubkeys, q);
      materialized := materialized - {q};
      if q in queryPubkeys {
        var pubkeys := queryPubkeys[q];
        queryPubkeys := queryPubkeys - {q};
        Unlink(q, pubkeys);
      }
    }

    method Unlink(q: Hash, pubkeys: set<Pubkey>)
      modifies this`pubkeyQueries
      ensures pubkeyQueries == CleanedFor(old(pubkeyQueries), q, pubkeys)
    {
      hide *;
      assert CleanedFor(pubkeyQueries, q, {}) == pubkeyQueries by { CleanedForNobody(pubkeyQueries, q); }
      var todo := pubkeys;
      assert pubkeys - todo == {};
      while todo != {}
        invariant todo <= pubkeys
        invariant pubkeyQueries == CleanedFor(old(pubkeyQueries), q, pubkeys - todo)
        decreases |todo|
      {
        var p :| p in todo;
        CleanedForStep(old(pubkeyQueries), q, pubkeys - todo, p);
        assert pubkeys - (todo - {p}) == pubkeys - todo + {p};
        todo := todo - {p};
        ghost var before := pubkeyQueries;
        if p in pubkeyQueries {
          pubkeyQueries := pubkeyQueries[p := pubkeyQueries[p] - {q}];
          if pubkeyQueries[p] == {} {
            ghost var cleared := pubkeyQueries;
            pubkeyQueries := pubkeyQueries - {p};
            assert cleared - {p} == before - {p};
          }
        }
      }
      assert pubkeys - todo == pubkeys;
    }

    method CacheMaterializedResult(q: Hash, result: R)
      requires Valid()
      modifies this
      ensures Valid() && Value() == Apply(old(Value()), Store(q, result))
    {
      materialized := materialized[q := result];
    }

    method GetMaterializedResult(q: Hash) returns (r: Option<R>)
      ensures r == if q in Value().cache then Some(Value().cache[q]) else None
    {
      r := if q in materialized then Some(materialized[q]) else None;
    }
  }
}
