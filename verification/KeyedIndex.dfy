/**
 The inverted index shared by the program, data-size and discriminator indexes (and, without
 removals, by the memcmp index): key -> bitmap of account ids, with a dictionary handing out ids.
 */
module KeyedIndex {
  import opened Bytes
  import opened Wrappers

  datatype State<K> = State(
    bitmaps: map<K, set<nat>>, current: map<Pubkey, K>, dict: map<Pubkey, nat>, nextId: nat, total: nat)

  datatype Event<K> = Add(a: Pubkey, k: K) | Remove(a: Pubkey)

  function Empty<K>(): State<K> {
    State(map[], map[], map[], 0, 0)
  }

  function Apply<K>(s: State<K>, e: Event<K>): State<K> {
    match e
    case Add(a, k) =>
      var id := if a in s.dict then s.dict[a] else s.nextId;
      State(
        s.bitmaps[k := (if k in s.bitmaps then s.bitmaps[k] else {}) + {id}],
        s.current[a := k],
        s.dict[a := id],
        if a in s.dict then s.nextId else s.nextId + 1,
        s.total + 1)
    case Remove(a) =>
      if a !in s.current then s
      else
        var k := s.current[a];
        s.(current := s.current - {a},
           bitmaps := if k in s.bitmaps && a in s.dict then s.bitmaps[k := s.bitmaps[k] - {s.dict[a]}] else s.bitmaps,
           total := if s.total > 0 then s.total - 1 else 0)
  }

  function Exec<K>(trace: seq<Event<K>>): State<K> {
    if trace == [] then Empty() else Apply(Exec(trace[..|trace| - 1]), trace[|trace| - 1])
  }

  // ---------------------------------------------------------------- what a trace means

  /** The key of the last event on `a`, if that event is an add. */
  function CurrentKey<K>(trace: seq<Event<K>>, a: Pubkey): Option<K> {
    if trace == [] then None
    else
      var e := trace[|trace| - 1];
      if e.a == a then if e.Add? then Some(e.k) else None
      else CurrentKey(trace[..|trace| - 1], a)
  }

  /** `a` was added under `k` and not removed since while `k` was its current key. */
  predicate Member<K(==)>(trace: seq<Event<K>>, a: Pubkey, k: K) {
    trace != [] &&
    var front, e := trace[..|trace| - 1], trace[|trace| - 1];
    if e == Add(a, k) then true
    else if e == Remove(a) && CurrentKey(front, a) == Some(k) then false
    else Member(front, a, k)
  }

  predicate EverAdded<K(==)>(trace: seq<Event<K>>, k: K) {
    exists e <- trace :: e.Add? && e.k == k
  }

  /** The accounts in order of their first add under any key. */
  function FirstAdds<K>(trace: seq<Event<K>>): seq<Pubkey> {
    if trace == [] then []
    else
      var rest := FirstAdds(trace[..|trace| - 1]);
      var e := trace[|trace| - 1];
      if e.Add? && e.a !in rest then rest + [e.a] else rest
  }

  /** The members of `k` among the first `n` accounts ever added, in that order. */
  function Members<K(==)>(trace: seq<Event<K>>, k: K, n: nat): seq<Pubkey>
    requires n <= |FirstAdds(trace)|
  {
    if n == 0 then []
    else
      var a := FirstAdds(trace)[n - 1];
      Members(trace, k, n - 1) + if Member(trace, a, k) then [a] else []
  }

  /** What looking up `k` returns. */
  function Lookup<K(==)>(trace: seq<Event<K>>, k: K): Option<seq<Pubkey>> {
    if EverAdded(trace, k) then Some(Members(trace, k, |FirstAdds(trace)|)) else None
  }

  lemma Snoc<K>(trace: seq<Event<K>>, e: Event<K>)
    ensures Exec(trace + [e]) == Apply(Exec(trace), e)
    ensures (trace + [e])[..|trace|] == trace
  {
    assert (trace + [e])[..|trace|] == trace;
  }

  predicate NoDuplicates<T(==)>(s: seq<T>) {
    forall i, j :: 0 <= i < j < |s| ==> s[i] != s[j]
  }

  /** The recursive reading of membership agrees with the one by event positions. */
  lemma {:induction false} MemberByPosition<K>(trace: seq<Event<K>>, a: Pubkey, k: K)
    ensures Member(trace, a, k) <==>
      exists i :: 0 <= i < |trace| && trace[i] == Add(a, k) && NotDropped(trace, a, k, i)
  {
    if trace != [] {
      var n := |trace| - 1;
      var front := trace[..n];
      MemberByPosition(front, a, k);
      assert Member(trace, a, k) <==>
        trace[n] == Add(a, k) || (Member(front, a, k) && !(trace[n] == Remove(a) && CurrentKey(front, a) == Some(k)));
      forall i | 0 <= i < n ensures NotDropped(trace, a, k, i) <==>
        NotDropped(front, a, k, i) && !(trace[n] == Remove(a) && CurrentKey(front, a) == Some(k))
      {
        NotDroppedSnoc(trace, a, k, i);
      }
      assert NotDropped(trace, a, k, n);
      hide *;
      assert trace == front + [trace[n]];
    }
  }

  lemma NotDroppedSnoc<K>(trace: seq<Event<K>>, a: Pubkey, k: K, i: nat)
    requires i < |trace| - 1
    ensures var n := |trace| - 1;
      NotDropped(trace, a, k, i) <==>
        NotDropped(trace[..n], a, k, i) && !(trace[n] == Remove(a) && CurrentKey(trace[..n], a) == Some(k))
  {
    var n := |trace| - 1;
    assert forall j :: 0 <= j < n ==> trace[..n][..j] == trace[..j];
    hide CurrentKey;
    if NotDropped(trace[..n], a, k, i) && !(trace[n] == Remove(a) && CurrentKey(trace[..n], a) == Some(k)) {
      assert NotDropped(trace, a, k, i);
    }
  }

  predicate NotDropped<K(==)>(trace: seq<Event<K>>, a: Pubkey, k: K, i: nat) {
    forall j :: i < j < |trace| && trace[j] == Remove(a) ==> CurrentKey(trace[..j], a) != Some(k)
  }

  // ---------------------------------------------------------------- the index agrees with its trace

  ghost predicate DictAgrees<K>(s: State<K>, order: seq<Pubkey>) {
    && s.nextId == |order| && NoDuplicates(order)
    && (forall i :: 0 <= i < |order| ==> order[i] in s.dict && s.dict[order[i]] == i)
    && (forall a <- s.dict :: s.dict[a] < |order| && order[s.dict[a]] == a)
  }

  ghost predicate BitmapsAgree<K(!new)>(s: State<K>, trace: seq<Event<K>>) {
    && (forall k :: k in s.bitmaps <==> EverAdded(trace, k))
    && (forall k, id :: k in s.bitmaps && id in s.bitmaps[k] ==> id < |FirstAdds(trace)|)
    && (forall k, i :: 0 <= i < |FirstAdds(trace)| && k in s.bitmaps ==>
          (i in s.bitmaps[k] <==> Member(trace, FirstAdds(trace)[i], k)))
  }

  lemma {:induction false} DictRefines<K>(trace: seq<Event<K>>)
    ensures DictAgrees(Exec(trace), FirstAdds(trace))
  {
    if trace != [] {
      DictRefines(trace[..|trace| - 1]);
    }
  }

  lemma {:induction false} CurrentRefines<K>(trace: seq<Event<K>>, a: Pubkey)
    ensures CurrentKey(trace, a) == if a in Exec(trace).current then Some(Exec(trace).current[a]) else None
  {
    if trace != [] {
      CurrentRefines(trace[..|trace| - 1], a);
    }
  }

  lemma {:induction false} MemberWasAdded<K>(trace: seq<Event<K>>, a: Pubkey, k: K)
    ensures Member(trace, a, k) ==> a in FirstAdds(trace) && EverAdded(trace, k)
  {
    if trace != [] {
      var front, e := trace[..|trace| - 1], trace[|trace| - 1];
      assert trace == front + [e];
      MemberWasAdded(front, a, k);
    }
  }

  lemma EverAddedSnoc<K>(trace: seq<Event<K>>, e: Event<K>, k: K)
    ensures EverAdded(trace + [e], k) <==> EverAdded(trace, k) || (e.Add? && e.k == k)
  {
    if EverAdded(trace, k) {
      var x :| x in trace && x.Add? && x.k == k;
      assert x in trace + [e];
    }
    assert e in trace + [e];
  }

  lemma MemberAdd<K>(front: seq<Event<K>>, a: Pubkey, k: K, x: Pubkey, y: K)
    ensures Member(front + [Add(a, k)], x, y) <==> (x == a && y == k) || Member(front, x, y)
  {
    Snoc(front, Add(a, k));
  }

  /** The id an add uses, and where it stands in the order of first adds. */
  lemma AddEffect<K>(front: seq<Event<K>>, a: Pubkey, k: K) returns (id: nat)
    ensures var s, t := Exec(front), Exec(front + [Add(a, k)]);
      var before, order := FirstAdds(front), FirstAdds(front + [Add(a, k)]);
      && t.bitmaps == s.bitmaps[k := (if k in s.bitmaps then s.bitmaps[k] else {}) + {id}]
      && before <= order && |before| <= |order| <= |before| + 1
      && id < |order| && (forall i :: 0 <= i < |order| ==> (order[i] == a <==> i == id))
      && (|order| > |before| ==> id == |before|)
  {
    Snoc(front, Add(a, k));
    DictRefines(front);
    DictRefines(front + [Add(a, k)]);
    var s := Exec(front);
    id := if a in s.dict then s.dict[a] else s.nextId;
  }

  lemma AddRefines<K(!new)>(front: seq<Event<K>>, a: Pubkey, k: K)
    requires BitmapsAgree(Exec(front), front)
    ensures BitmapsAgree(Exec(front + [Add(a, k)]), front + [Add(a, k)])
  {
    var trace := front + [Add(a, k)];
    var id := AddEffect(front, a, k);
    var s, t := Exec(front), Exec(trace);
    var before, order := FirstAdds(front), FirstAdds(trace);
    hide Exec, EverAdded, FirstAdds, Member;
    forall x: K ensures x in t.bitmaps <==> EverAdded(trace, x) {
      EverAddedSnoc(front, Add(a, k), x);
    }
    forall x, i | 0 <= i < |order| && x in t.bitmaps
      ensures i in t.bitmaps[x] <==> Member(trace, order[i], x)
    {
      MemberAdd(front, a, k, order[i], x);
      MemberWasAdded(front, order[i], x);
      if i < |before| {
        assert before[i] == order[i];
      } else {
        NewcomerWasNoMember(front, a, k, x);
      }
    }
  }

  /** The account that an add appends to the order was a member of nothing. */
  lemma NewcomerWasNoMember<K>(front: seq<Event<K>>, a: Pubkey, k: K, x: K)
    requires |FirstAdds(front + [Add(a, k)])| > |FirstAdds(front)|
    ensures !Member(front, a, x)
  {
    Snoc(front, Add(a, k));
    MemberWasAdded(front, a, x);
  }

  lemma RemoveRefines<K(!new)>(front: seq<Event<K>>, a: Pubkey)
    requires BitmapsAgree(Exec(front), front)
    ensures BitmapsAgree(Exec(front + [Event<K>.Remove(a)]), front + [Event<K>.Remove(a)])
  {
    var e := Event<K>.Remove(a);
    var trace := front + [e];
    Snoc(front, e);
    DictRefines(front);
    CurrentRefines(front, a);
    hide Exec;
    hide EverAdded;
    forall x: K ensures EverAdded(front, x) <==> EverAdded(trace, x) {
      EverAddedSnoc(front, e, x);
    }
  }

  lemma {:induction false} BitmapsRefine<K(!new)>(trace: seq<Event<K>>)
    ensures BitmapsAgree(Exec(trace), trace)
  {
    if trace != [] {
      var front, e := trace[..|trace| - 1], trace[|trace| - 1];
      assert trace == front + [e];
      BitmapsRefine(front);
      match e
      case Add(a, k) => AddRefines(front, a, k);
      case Remove(a) => RemoveRefines(front, a);
    }
  }

  // ---------------------------------------------------------------- main results

  lemma {:induction false} MembersUpTo<K>(trace: seq<Event<K>>, k: K, n: nat)
    requires n <= |FirstAdds(trace)|
    ensures forall a: Pubkey :: a in Members(trace, k, n) <==> a in FirstAdds(trace)[..n] && Member(trace, a, k)
    ensures NoDuplicates(Members(trace, k, n))
  {
    if n > 0 {
      MembersUpTo(trace, k, n - 1);
      DictRefines(trace);
      var order, m := FirstAdds(trace), Members(trace, k, n - 1);
      var last := order[n - 1];
      assert order[..n] == order[..n - 1] + [last];
      assert last !in order[..n - 1];
      assert Members(trace, k, n) == m + if Member(trace, last, k) then [last] else [];
      hide Members, Member, FirstAdds, DictAgrees, Exec;
      AppendNew(m, last);
    }
  }

  lemma AppendNew<T>(s: seq<T>, x: T)
    requires NoDuplicates(s) && x !in s
    ensures NoDuplicates(s + [x]) && NoDuplicates(s + [])
  {
    assert s + [] == s;
  }

  /** A lookup lists, once each, exactly the accounts added under `k` and not removed since while filed there. */
  lemma LookupListsMembers<K>(trace: seq<Event<K>>, k: K)
    ensures Lookup(trace, k).None? <==> !EverAdded(trace, k)
    ensures Lookup(trace, k).Some? ==>
      && NoDuplicates(Lookup(trace, k).value)
      && forall a: Pubkey :: a in Lookup(trace, k).value <==> Member(trace, a, k)
  {
    var order := FirstAdds(trace);
    MembersUpTo(trace, k, |order|);
    assert order[..|order|] == order;
    forall a: Pubkey | Member(trace, a, k) ensures a in order {
      MemberWasAdded(trace, a, k);
    }
  }

  /** `m` is the sublist of the first `n` elements of `order` at the increasing positions `pos`. */
  ghost predicate PicksAt<T>(m: seq<T>, order: seq<T>, n: nat, pos: seq<nat>) {
    && |pos| == |m| && n <= |order|
    && (forall i :: 0 <= i < |m| ==> pos[i] < n && m[i] == order[pos[i]])
    && forall i, j :: 0 <= i < j < |m| ==> pos[i] < pos[j]
  }

  lemma PicksMore<T>(m: seq<T>, order: seq<T>, n: nat, pos: seq<nat>)
    requires n < |order| && PicksAt(m, order, n, pos)
    ensures PicksAt(m, order, n + 1, pos) && PicksAt(m + [order[n]], order, n + 1, pos + [n])
  {
  }

  /** Where the members of `k` stand in the order of first adds. */
  function Places<K(==)>(trace: seq<Event<K>>, k: K, n: nat): seq<nat>
    requires n <= |FirstAdds(trace)|
  {
    if n == 0 then []
    else Places(trace, k, n - 1) + if Member(trace, FirstAdds(trace)[n - 1], k) then [n - 1] else []
  }

  /** A lookup keeps the order of first adds. */
  lemma {:induction false} MembersInOrder<K>(trace: seq<Event<K>>, k: K, n: nat)
    requires n <= |FirstAdds(trace)|
    ensures PicksAt(Members(trace, k, n), FirstAdds(trace), n, Places(trace, k, n))
  {
    hide FirstAdds, Member;
    var order := FirstAdds(trace);
    if n > 0 {
      MembersInOrder(trace, k, n - 1);
      var m, pos := Members(trace, k, n - 1), Places(trace, k, n - 1);
      PicksMore(m, order, n - 1, pos);
      assert m + [] == m && pos + [] == pos;
      hide PicksAt;
    }
  }

  // ---------------------------------------------------------------- the object

  /** How many adds came for an account that still had a key. */
  function Readds<K>(trace: seq<Event<K>>): nat {
    if trace == [] then 0
    else
      var front, e := trace[..|trace| - 1], trace[|trace| - 1];
      Readds(front) + if e.Add? && CurrentKey(front, e.a).Some? then 1 else 0
  }

  /** The account total is the number of accounts with a key, plus one for each add of an account that had one: it is
      right exactly when accounts are removed before they are added again. */
  lemma {:induction false} TotalCounts<K>(trace: seq<Event<K>>)
    ensures Exec(trace).total == |Exec(trace).current| + Readds(trace)
  {
    if trace != [] {
      var front, e := trace[..|trace| - 1], trace[|trace| - 1];
      var s := Exec(front);
      TotalCounts(front);
      CurrentRefines(front, e.a);
      if e.Add? {
        assert s.current[e.a := e.k].Keys == s.current.Keys + {e.a};
      } else if e.a in s.current {
        assert (s.current - {e.a}).Keys == s.current.Keys - {e.a};
      }
    }
  }

  class Index<K(==,!new)> {
    var bitmaps: map<K, set<nat>>
    var current: map<Pubkey, K>
    var dict: map<Pubkey, nat>
    var nextId: nat
    var total: nat
    ghost var trace: seq<Event<K>>

    ghost predicate Valid()
      reads this
    {
      Exec(trace) == State(bitmaps, current, dict, nextId, total)
    }

    constructor ()
      ensures Valid() && trace == []
    {
      bitmaps, current, dict, nextId, total := map[], map[], map[], 0, 0;
      trace := [];
      new;
      assert Exec(trace) == Empty();
    }

    /** `add_account`. */
    method AddAccount(a: Pubkey, k: K)
      requires Valid()
      modifies this
      ensures Valid() && trace == old(trace) + [Add(a, k)]
    {
      hide Exec;
      Snoc(trace, Add(a, k));
      var id;
      if a in dict {
        id := dict[a];
      } else {
        id := nextId;
        nextId := nextId + 1;
      }
      dict := dict[a := id];
      if k in bitmaps {
        bitmaps := bitmaps[k := bitmaps[k] + {id}];
      } else {
        assert {} + {id} == {id};
        bitmaps := bitmaps[k := {id}];
      }
      current := current[a := k];
      total := total + 1;
      trace := trace + [Add(a, k)];
    }

    /** `remove_account`. */
    method RemoveAccount(a: Pubkey)
      requires Valid()
      modifies this
      ensures Valid() && trace == old(trace) + [Remove(a)]
    {
      hide Exec;
      Snoc(trace, Remove(a));
      if a in current {
        var k := current[a];
        current := current - {a};
        if k in bitmaps && a in dict {
          bitmaps := bitmaps[k := bitmaps[k] - {dict[a]}];
        }
        total := if total > 0 then total - 1 else 0;
      }
      trace := trace + [Remove(a)];
    }

    /** `get_program_accounts` and its siblings: the bitmap's ids in increasing order, mapped back to accounts. */
    method GetAccounts(k: K) returns (r: Option<seq<Pubkey>>)
      requires Valid()
      ensures r == Lookup(trace, k)
    {
      DictRefines(trace);
      BitmapsRefine(trace);
      hide Exec;
      hide EverAdded;
      hide Member;
      if k !in bitmaps {
        return None;
      }
      var ids := bitmaps[k];
      var idToPubkey := map a | a in dict :: dict[a] := a;
      var accounts := [];
      for id := 0 to nextId
        invariant accounts == Members(trace, k, id)
      {
        assert FirstAdds(trace)[id] in dict;
        if id in ids && id in idToPubkey {
          accounts := accounts + [idToPubkey[id]];
        }
      }
      r := Some(accounts);
    }

    /** `get_all_programs` and its siblings. */
    method AllKeys() returns (keys: set<K>)
      requires Valid()
      ensures forall k :: k in keys <==> EverAdded(trace, k)
    {
      BitmapsRefine(trace);
      keys := bitmaps.Keys;
    }

    /** The account's key, as the reverse map has it. */
    method KeyOf(a: Pubkey) returns (r: Option<K>)
      requires Valid()
      ensures r == CurrentKey(trace, a)
    {
      CurrentRefines(trace, a);
      r := if a in current then Some(current[a]) else None;
    }
  }
}
