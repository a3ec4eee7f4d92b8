/** Drives the four secondary indexes from account updates, and what a filter lookup then returns. */
module IndexManager {
  import opened Bytes
  import opened Wrappers
  import K = KeyedIndex

  datatype MemKey = MemKey(offset: nat, bytes: seq<byte>)

  datatype Event = Update(a: Pubkey, owner: Pubkey, data: seq<byte>) | Removed(a: Pubkey)

  datatype Filter = DataSize(size: nat) | Memcmp(offset: nat, bytes: seq<byte>) | Discriminator(disc: seq<byte>)

  // ---------------------------------------------------------------- one event's effect on each index

  function ProgramEvents(e: Event): seq<K.Event<Pubkey>> {
    match e
    case Update(a, owner, _) => [K.Add(a, owner)]
    case Removed(a) => [K.Remove(a)]
  }

  function SizeEvents(e: Event): seq<K.Event<nat>> {
    match e
    case Update(a, _, data) => [K.Add(a, |data|)]
    case Removed(a) => [K.Remove(a)]
  }

  /** The first 8 and the first 32 bytes are indexed; removals do not reach this index. */
  function MemcmpEvents(e: Event): seq<K.Event<MemKey>> {
    match e
    case Update(a, _, data) =>
      (if |data| >= 8 then [K.Add(a, MemKey(0, data[..8]))] else [])
      + (if |data| >= 32 then [K.Add(a, MemKey(0, data[..32]))] else [])
    case Removed(_) => []
  }

  function DiscriminatorEvents(e: Event): seq<K.Event<seq<byte>>> {
    match e
    case Update(a, _, data) => if |data| >= 8 then [K.Add(a, data[..8])] else []
    case Removed(_) => []
  }

  function ProgramTrace(h: seq<Event>): seq<K.Event<Pubkey>> {
    if h == [] then [] else ProgramTrace(h[..|h| - 1]) + ProgramEvents(h[|h| - 1])
  }

  function SizeTrace(h: seq<Event>): seq<K.Event<nat>> {
    if h == [] then [] else SizeTrace(h[..|h| - 1]) + SizeEvents(h[|h| - 1])
  }

  function MemcmpTrace(h: seq<Event>): seq<K.Event<MemKey>> {
    if h == [] then [] else MemcmpTrace(h[..|h| - 1]) + MemcmpEvents(h[|h| - 1])
  }

  function DiscriminatorTrace(h: seq<Event>): seq<K.Event<seq<byte>>> {
    if h == [] then [] else DiscriminatorTrace(h[..|h| - 1]) + DiscriminatorEvents(h[|h| - 1])
  }

  /** The accounts an index lists for a filter; `None` when the filter's key was never indexed. */
  function FilterAccounts(h: seq<Event>, f: Filter): Option<seq<Pubkey>> {
    match f
    case DataSize(size) => K.Lookup(SizeTrace(h), size)
    case Memcmp(offset, bytes) => K.Lookup(MemcmpTrace(h), MemKey(offset, bytes))
    case Discriminator(disc) => K.Lookup(DiscriminatorTrace(h), disc)
  }

  function ProgramAccounts(h: seq<Event>, program: Pubkey): Option<seq<Pubkey>> {
    K.Lookup(ProgramTrace(h), program)
  }

  /** `a` is filed under the filter's key. */
  predicate Filed(h: seq<Event>, f: Filter, a: Pubkey) {
    match f
    case DataSize(size) => K.Member(SizeTrace(h), a, size)
    case Memcmp(offset, bytes) => K.Member(MemcmpTrace(h), a, MemKey(offset, bytes))
    case Discriminator(disc) => K.Member(DiscriminatorTrace(h), a, disc)
  }

  lemma FilterAccountsAreFiled(h: seq<Event>, f: Filter)
    ensures FilterAccounts(h, f).Some? ==>
      && K.NoDuplicates(FilterAccounts(h, f).value)
      && forall a: Pubkey :: a in FilterAccounts(h, f).value <==> Filed(h, f, a)
  {
    match f
    case DataSize(size) => K.LookupListsMembers(SizeTrace(h), size);
    case Memcmp(offset, bytes) => K.LookupListsMembers(MemcmpTrace(h), MemKey(offset, bytes));
    case Discriminator(disc) => K.LookupListsMembers(DiscriminatorTrace(h), disc);
  }

  // ---------------------------------------------------------------- an account's own history

  /** The last event on `a`. */
  function LastEvent(h: seq<Event>, a: Pubkey): Option<Event> {
    if h == [] then None
    else if h[|h| - 1].a == a then Some(h[|h| - 1])
    else LastEvent(h[..|h| - 1], a)
  }

  /** The owner named by the last update of `a`. */
  function LastOwner(h: seq<Event>, a: Pubkey): Option<Pubkey> {
    if h == [] then None
    else if h[|h| - 1].a == a && h[|h| - 1].Update? then Some(h[|h| - 1].owner)
    else LastOwner(h[..|h| - 1], a)
  }

  /** What a `getProgramAccounts` filter asks of account data. */
  predicate Matches(data: seq<byte>, f: Filter) {
    match f
    case DataSize(size) => |data| == size
    case Memcmp(offset, bytes) => offset + |bytes| <= |data| && data[offset..offset + |bytes|] == bytes
    case Discriminator(disc) => |disc| == 8 <= |data| && data[..8] == disc
  }

  lemma MemberSnoc<T>(t: seq<K.Event<T>>, e: K.Event<T>, a: Pubkey, k: T)
    ensures K.Member(t + [e], a, k) <==>
      e == K.Add(a, k) || (K.Member(t, a, k) && !(e == K.Remove(a) && K.CurrentKey(t, a) == Some(k)))
    ensures K.CurrentKey(t + [e], a) ==
      if e.a == a then (if e.Add? then Some(e.k) else None) else K.CurrentKey(t, a)
  {
    K.Snoc(t, e);
  }

  /** The program and size indexes track the account's last event. */
  lemma {:induction false} CurrentFiling(h: seq<Event>, a: Pubkey)
    ensures var last := LastEvent(h, a);
      && K.CurrentKey(ProgramTrace(h), a) == (if last.Some? && last.value.Update? then Some(last.value.owner) else None)
      && K.CurrentKey(SizeTrace(h), a) == (if last.Some? && last.value.Update? then Some(|last.value.data|) else None)
      && (last.Some? && last.value.Update? ==>
            K.Member(ProgramTrace(h), a, last.value.owner) && K.Member(SizeTrace(h), a, |last.value.data|))
  {
    if h != [] {
      var front, e := h[..|h| - 1], h[|h| - 1];
      CurrentFiling(front, a);
      var last := LastEvent(h, a);
      var p, s := ProgramEvents(e)[0], SizeEvents(e)[0];
      if last.Some? && last.value.Update? {
        MemberSnoc(ProgramTrace(front), p, a, last.value.owner);
        MemberSnoc(SizeTrace(front), s, a, |last.value.data|);
      } else {
        MemberSnoc(ProgramTrace(front), p, a, e.a);
        MemberSnoc(SizeTrace(front), s, a, 0);
      }
    }
  }

  /** The two shapes of memcmp key the manager indexes. */
  predicate Indexed(k: MemKey) {
    k.offset == 0 && (|k.bytes| == 8 || |k.bytes| == 32)
  }

  predicate Holds(e: Event, a: Pubkey, prefix: seq<byte>) {
    e.Update? && e.a == a && prefix <= e.data
  }

  /** Some update of `a` had data starting with `prefix`. */
  predicate EverHeld(h: seq<Event>, a: Pubkey, prefix: seq<byte>) {
    exists e <- h :: Holds(e, a, prefix)
  }

  lemma EverHeldSnoc(front: seq<Event>, e: Event, a: Pubkey, prefix: seq<byte>)
    ensures EverHeld(front + [e], a, prefix) <==> EverHeld(front, a, prefix) || Holds(e, a, prefix)
  {
    assert e in front + [e];
    if EverHeld(front, a, prefix) {
      var x :| x in front && Holds(x, a, prefix);
      assert x in front + [e];
    }
  }

  lemma PrefixIs(data: seq<byte>, n: nat, p: seq<byte>)
    requires |p| == n
    ensures p <= data <==> n <= |data| && data[..n] == p
  {
  }

  /** An account stays filed under every indexed prefix its data ever had: nothing is removed here. */
  lemma {:induction false} MemcmpFiling(h: seq<Event>, a: Pubkey, k: MemKey)
    ensures K.Member(MemcmpTrace(h), a, k) <==> Indexed(k) && EverHeld(h, a, k.bytes)
    ensures K.EverAdded(MemcmpTrace(h), k) ==> Indexed(k)
  {
    if h != [] {
      var front, e := h[..|h| - 1], h[|h| - 1];
      assert h == front + [e];
      MemcmpFiling(front, a, k);
      EverHeldSnoc(front, e, a, k.bytes);
      assert MemcmpTrace(h) == MemcmpTrace(front) + MemcmpEvents(e);
      MemcmpStep(MemcmpTrace(front), e, a, k);
    }
  }

  /** What one event adds to the memcmp index. */
  lemma MemcmpStep(t: seq<K.Event<MemKey>>, e: Event, a: Pubkey, k: MemKey)
    ensures K.Member(t + MemcmpEvents(e), a, k) <==> K.Member(t, a, k) || (Indexed(k) && Holds(e, a, k.bytes))
    ensures K.EverAdded(t + MemcmpEvents(e), k) ==> K.EverAdded(t, k) || Indexed(k)
  {
    hide K.Member;
    hide K.EverAdded;
    hide K.CurrentKey;
    PrefixIs(if e.Update? then e.data else [], |k.bytes|, k.bytes);
    if e.Update? && |e.data| >= 8 {
      var e8 := K.Add(e.a, MemKey(0, e.data[..8]));
      MemberSnoc(t, e8, a, k);
      K.EverAddedSnoc(t, e8, k);
      if |e.data| >= 32 {
        var e32 := K.Add(e.a, MemKey(0, e.data[..32]));
        MemberSnoc(t + [e8], e32, a, k);
        K.EverAddedSnoc(t + [e8], e32, k);
        assert t + MemcmpEvents(e) == t + [e8] + [e32];
      } else {
        assert t + MemcmpEvents(e) == t + [e8];
      }
    } else {
      assert t + MemcmpEvents(e) == t;
    }
  }

  lemma {:induction false} DiscriminatorFiling(h: seq<Event>, a: Pubkey, disc: seq<byte>)
    ensures K.Member(DiscriminatorTrace(h), a, disc) <==> |disc| == 8 && EverHeld(h, a, disc)
    ensures K.EverAdded(DiscriminatorTrace(h), disc) ==> |disc| == 8
  {
    if h != [] {
      var front, e := h[..|h| - 1], h[|h| - 1];
      assert h == front + [e];
      DiscriminatorFiling(front, a, disc);
      EverHeldSnoc(front, e, a, disc);
      PrefixIs(if e.Update? then e.data else [], |disc|, disc);
      hide EverHeld;
      var t := DiscriminatorTrace(front);
      if e.Update? && |e.data| >= 8 {
        MemberSnoc(t, K.Add(e.a, e.data[..8]), a, disc);
        K.EverAddedSnoc(t, K.Add(e.a, e.data[..8]), disc);
      } else {
        assert DiscriminatorTrace(h) == t;
      }
    }
  }

  lemma {:induction false} LastEventHappened(h: seq<Event>, a: Pubkey)
    ensures LastEvent(h, a).Some? ==> LastEvent(h, a).value in h && LastEvent(h, a).value.a == a
  {
    if h != [] {
      LastEventHappened(h[..|h| - 1], a);
    }
  }

  /** Data that satisfies a filter is filed under it, unless nothing ever was. */
  lemma MatchingIsFiled(h: seq<Event>, a: Pubkey, f: Filter)
    requires LastEvent(h, a).Some? && LastEvent(h, a).value.Update? && Matches(LastEvent(h, a).value.data, f)
    ensures FilterAccounts(h, f).Some? ==> Filed(h, f, a)
  {
    CurrentFiling(h, a);
    LastEventHappened(h, a);
    var data := LastEvent(h, a).value.data;
    match f
    case DataSize(size) =>
    case Memcmp(offset, bytes) =>
      MemcmpFiling(h, a, MemKey(offset, bytes));
      K.LookupListsMembers(MemcmpTrace(h), MemKey(offset, bytes));
      assert offset == 0 ==> Holds(LastEvent(h, a).value, a, bytes);
    case Discriminator(disc) =>
      DiscriminatorFiling(h, a, disc);
      assert Holds(LastEvent(h, a).value, a, disc);
  }

  predicate Updates(e: Event, a: Pubkey) {
    e.Update? && e.a == a
  }

  ghost predicate SameOwner(h: seq<Event>, a: Pubkey) {
    forall e <- h, f <- h :: Updates(e, a) && Updates(f, a) ==> e.owner == f.owner
  }

  ghost predicate SameSize(h: seq<Event>, a: Pubkey) {
    forall e <- h, f <- h :: Updates(e, a) && Updates(f, a) ==> |e.data| == |f.data|
  }

  /** All data `a` ever had start with the same `n` bytes, or all are shorter. */
  ghost predicate SamePrefix(h: seq<Event>, a: Pubkey, n: nat) {
    forall e <- h, f <- h :: Updates(e, a) && Updates(f, a) && n <= |e.data| ==>
      n <= |f.data| && e.data[..n] == f.data[..n]
  }

  /** Every update of `a` files it under the same keys; the bytes that are in no key are free to change. */
  ghost predicate KeysNeverChange(h: seq<Event>, a: Pubkey) {
    SameOwner(h, a) && SameSize(h, a) && SamePrefix(h, a, 8) && SamePrefix(h, a, 32)
  }

  lemma TracesSnoc(h: seq<Event>, e: Event)
    ensures ProgramTrace(h + [e]) == ProgramTrace(h) + ProgramEvents(e)
    ensures SizeTrace(h + [e]) == SizeTrace(h) + SizeEvents(e)
    ensures MemcmpTrace(h + [e]) == MemcmpTrace(h) + MemcmpEvents(e)
    ensures DiscriminatorTrace(h + [e]) == DiscriminatorTrace(h) + DiscriminatorEvents(e)
  {
    assert (h + [e])[..|h|] == h;
  }

  lemma SameOwnerPrefix(front: seq<Event>, e: Event, a: Pubkey)
    requires SameOwner(front + [e], a)
    ensures SameOwner(front, a)
    ensures e.Update? && e.a == a && LastEvent(front, a).Some? && LastEvent(front, a).value.Update? ==>
      LastEvent(front, a).value.owner == e.owner
  {
    assert (front + [e])[|front|] == e;
    assert forall x <- front :: x in front + [e];
    LastEventHappened(front, a);
  }

  lemma SameSizePrefix(front: seq<Event>, e: Event, a: Pubkey)
    requires SameSize(front + [e], a)
    ensures SameSize(front, a)
    ensures e.Update? && e.a == a && LastEvent(front, a).Some? && LastEvent(front, a).value.Update? ==>
      |LastEvent(front, a).value.data| == |e.data|
  {
    assert (front + [e])[|front|] == e;
    assert forall x <- front :: x in front + [e];
    LastEventHappened(front, a);
  }

  lemma LastEventSnoc(front: seq<Event>, e: Event, a: Pubkey)
    ensures LastEvent(front + [e], a) == if e.a == a then Some(e) else LastEvent(front, a)
  {
    assert (front + [e])[..|front|] == front;
  }

  /** An account with one owner is filed under a program only while it is live with that owner. */
  lemma {:induction false} StableOwner(h: seq<Event>, a: Pubkey, owner: Pubkey)
    requires SameOwner(h, a)
    ensures var last := LastEvent(h, a);
      K.Member(ProgramTrace(h), a, owner) <==> last.Some? && last.value.Update? && last.value.owner == owner
  {
    if h != [] {
      var front, e := h[..|h| - 1], h[|h| - 1];
      assert h == front + [e];
      TracesSnoc(front, e);
      hide *;
      SameOwnerPrefix(front, e, a);
      StableOwner(front, a, owner);
      CurrentFiling(front, a);
      LastEventSnoc(front, e, a);
      OwnerStep(front, e, a, owner);
    }
  }

  lemma OwnerStep(front: seq<Event>, e: Event, a: Pubkey, owner: Pubkey)
    ensures K.Member(ProgramTrace(front) + ProgramEvents(e), a, owner) <==>
      if e.Update? && e.a == a && e.owner == owner then true
      else K.Member(ProgramTrace(front), a, owner) &&
           !(e.Removed? && e.a == a && K.CurrentKey(ProgramTrace(front), a) == Some(owner))
  {
    MemberSnoc(ProgramTrace(front), ProgramEvents(e)[0], a, owner);
    assert ProgramEvents(e) == [ProgramEvents(e)[0]];
  }

  /** And one of constant size under a size only while it is live with that size. */
  lemma {:induction false} StableSize(h: seq<Event>, a: Pubkey, size: nat)
    requires SameSize(h, a)
    ensures var last := LastEvent(h, a);
      K.Member(SizeTrace(h), a, size) <==> last.Some? && last.value.Update? && |last.value.data| == size
  {
    if h != [] {
      var front, e := h[..|h| - 1], h[|h| - 1];
      assert h == front + [e];
      TracesSnoc(front, e);
      hide *;
      SameSizePrefix(front, e, a);
      StableSize(front, a, size);
      CurrentFiling(front, a);
      LastEventSnoc(front, e, a);
      SizeStep(front, e, a, size);
    }
  }

  lemma SizeStep(front: seq<Event>, e: Event, a: Pubkey, size: nat)
    ensures K.Member(SizeTrace(front) + SizeEvents(e), a, size) <==>
      if e.Update? && e.a == a && |e.data| == size then true
      else K.Member(SizeTrace(front), a, size) &&
           !(e.Removed? && e.a == a && K.CurrentKey(SizeTrace(front), a) == Some(size))
  {
    MemberSnoc(SizeTrace(front), SizeEvents(e)[0], a, size);
    assert SizeEvents(e) == [SizeEvents(e)[0]];
  }

  /** Data with a constant prefix once started with some bytes of that length only if it does now. */
  lemma StableHeld(h: seq<Event>, a: Pubkey, bytes: seq<byte>)
    requires SamePrefix(h, a, |bytes|) && LastEvent(h, a).Some? && LastEvent(h, a).value.Update?
    ensures EverHeld(h, a, bytes) <==> Holds(LastEvent(h, a).value, a, bytes)
  {
    LastEventHappened(h, a);
    var last := LastEvent(h, a).value;
    hide LastEvent;
    if EverHeld(h, a, bytes) {
      var e :| e in h && Holds(e, a, bytes);
      PrefixIs(e.data, |bytes|, bytes);
      PrefixIs(last.data, |bytes|, bytes);
      assert Updates(e, a) && Updates(last, a);
    }
  }

  /** Then being filed under a filter means matching it, for a live account. */
  lemma StableMatches(h: seq<Event>, a: Pubkey, f: Filter)
    requires KeysNeverChange(h, a) && LastEvent(h, a).Some? && LastEvent(h, a).value.Update?
    requires FilterAccounts(h, f).Some?
    ensures Filed(h, f, a) <==> Matches(LastEvent(h, a).value.data, f)
  {
    LastEventHappened(h, a);
    assert f.Memcmp? ==> K.EverAdded(MemcmpTrace(h), MemKey(f.offset, f.bytes));
    assert f.Discriminator? ==> K.EverAdded(DiscriminatorTrace(h), f.disc);
    hide K.Member, K.EverAdded, K.Lookup, FilterAccounts, LastEvent, EverHeld, SameOwner, SameSize, SamePrefix;
    hide SizeTrace, MemcmpTrace, DiscriminatorTrace;
    match f
    case DataSize(size) =>
      StableSize(h, a, size);
    case Memcmp(offset, bytes) =>
      MemcmpFiling(h, a, MemKey(offset, bytes));
      StableHeld(h, a, bytes);
      PrefixIs(LastEvent(h, a).value.data, |bytes|, bytes);
    case Discriminator(disc) =>
      DiscriminatorFiling(h, a, disc);
      StableHeld(h, a, disc);
      PrefixIs(LastEvent(h, a).value.data, |disc|, disc);
  }

  // ---------------------------------------------------------------- the object

  class Manager {
    const programIndex: K.Index<Pubkey>
    const sizeIndex: K.Index<nat>
    const memcmpIndex: K.Index<MemKey>
    const discriminatorIndex: K.Index<seq<byte>>
    var totalIndexed: nat
    var totalUpdates: nat
    ghost var history: seq<Event>

    ghost predicate Valid()
      reads this, programIndex, sizeIndex, memcmpIndex, discriminatorIndex
    {
      && programIndex as object != sizeIndex && programIndex as object != memcmpIndex
      && programIndex as object != discriminatorIndex && sizeIndex as object != memcmpIndex
      && sizeIndex as object != discriminatorIndex && memcmpIndex as object != discriminatorIndex
      && programIndex.Valid() && programIndex.trace == ProgramTrace(history)
      && sizeIndex.Valid() && sizeIndex.trace == SizeTrace(history)
      && memcmpIndex.Valid() && memcmpIndex.trace == MemcmpTrace(history)
      && discriminatorIndex.Valid() && discriminatorIndex.trace == DiscriminatorTrace(history)
    }

    constructor ()
      ensures Valid() && history == [] && totalIndexed == 0 && totalUpdates == 0
      ensures fresh(programIndex) && fresh(sizeIndex) && fresh(memcmpIndex) && fresh(discriminatorIndex)
    {
      programIndex := new K.Index();
      sizeIndex := new K.Index();
      memcmpIndex := new K.Index();
      discriminatorIndex := new K.Index();
      totalIndexed, totalUpdates, history := 0, 0, [];
    }

    /** `update_account`. */
    method UpdateAccount(a: Pubkey, owner: Pubkey, data: seq<byte>)
      requires Valid()
      modifies this, programIndex, sizeIndex, memcmpIndex, discriminatorIndex
      ensures Valid() && history == old(history) + [Update(a, owner, data)]
      ensures totalIndexed == old(totalIndexed) + 1 && totalUpdates == old(totalUpdates) + 1
    {
      hide K.Exec;
      hide ProgramTrace;
      hide SizeTrace;
      hide MemcmpTrace;
      hide DiscriminatorTrace;
      totalUpdates := totalUpdates + 1;
      programIndex.AddAccount(a, owner);
      sizeIndex.AddAccount(a, |data|);
      IndexBytes(a, owner, data);
      totalIndexed := totalIndexed + 1;
      TracesSnoc(history, Update(a, owner, data));
      history := history + [Update(a, owner, data)];
    }

    /** The memcmp and discriminator part of `update_account`. */
    method IndexBytes(a: Pubkey, owner: Pubkey, data: seq<byte>)
      requires memcmpIndex.Valid() && discriminatorIndex.Valid() && memcmpIndex as object != discriminatorIndex
      modifies memcmpIndex, discriminatorIndex
      ensures memcmpIndex.Valid() && memcmpIndex.trace == old(memcmpIndex.trace) + MemcmpEvents(Update(a, owner, data))
      ensures discriminatorIndex.Valid()
      ensures discriminatorIndex.trace == old(discriminatorIndex.trace) + DiscriminatorEvents(Update(a, owner, data))
    {
      hide K.Exec;
      if |data| >= 8 {
        memcmpIndex.AddAccount(a, MemKey(0, data[..8]));
      }
      if |data| >= 32 {
        memcmpIndex.AddAccount(a, MemKey(0, data[..32]));
      }
      if |data| >= 8 {
        discriminatorIndex.AddAccount(a, data[..8]);
      }
    }

    /** `remove_account`: the memcmp and discriminator indexes keep the account. */
    method RemoveAccount(a: Pubkey)
      requires Valid()
      modifies this, programIndex, sizeIndex
      ensures Valid() && history == old(history) + [Removed(a)]
    {
      hide K.Exec;
      hide ProgramTrace;
      hide SizeTrace;
      hide MemcmpTrace;
      hide DiscriminatorTrace;
      programIndex.RemoveAccount(a);
      sizeIndex.RemoveAccount(a);
      TracesSnoc(history, Removed(a));
      history := history + [Removed(a)];
    }
  }
}
