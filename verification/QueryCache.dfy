/** The three-level query result cache: two bounded in-memory tiers over an unbounded disk tier. */
module QueryCache {
  import opened Bytes
  import opened Wrappers

  type Key = u64

  datatype Entry = Entry(data: seq<byte>, createdAt: u64, slot: u64, accessCount: nat, lastAccess: u64, ttl: u64)

  function NewEntry(data: seq<byte>, slot: u64, ttl: u64, now: u64): Entry {
    Entry(data, now, slot, 0, now, ttl)
  }

  /** The deadline as 64-bit addition computes it. */
  function Deadline(e: Entry): u64 {
    (e.createdAt + e.ttl) % U64_RANGE
  }

  predicate Expired(e: Entry, now: u64) {
    e.ttl == 0 || now > Deadline(e)
  }

  /** The wrapped deadline is the intended one exactly when the sum fits in 64 bits. */
  lemma DeadlineIsExact(e: Entry)
    ensures Deadline(e) == e.createdAt + e.ttl <==> e.createdAt + e.ttl < U64_RANGE
    ensures e.createdAt + e.ttl >= U64_RANGE ==> Deadline(e) < e.createdAt && Expired(e, e.createdAt)
  {
    if e.createdAt + e.ttl >= U64_RANGE {
      assert e.createdAt + e.ttl - U64_RANGE < U64_RANGE;
      assert (e.createdAt + e.ttl) % U64_RANGE == e.createdAt + e.ttl - U64_RANGE;
    }
  }

  function Accessed(e: Entry, now: u64): Entry {
    e.(accessCount := e.accessCount + 1, lastAccess := now)
  }

  // ---------------------------------------------------------------- one tier

  type Tier = map<Key, Entry>

  /** Inserts after evicting `victim` when the tier is at its limit. */
  function TierInsert(t: Tier, maxSize: nat, k: Key, e: Entry, victim: Key): Tier {
    (if |t| >= maxSize then t - {victim} else t)[k := e]
  }

  function TierGet(t: Tier, k: Key, now: u64): Option<Entry> {
    if k in t && !Expired(t[k], now) then Some(Accessed(t[k], now)) else None
  }

  /** The tier after a lookup: a hit is touched, an expired entry is dropped. */
  function TierAfterGet(t: Tier, k: Key, now: u64): Tier {
    if k !in t then t else if Expired(t[k], now) then t - {k} else t[k := Accessed(t[k], now)]
  }

  // ---------------------------------------------------------------- the whole cache

  datatype Config = Config(l1Size: nat, l2Size: nat)

  datatype State = State(l1: Tier, l2: Tier, l3: Tier, files: map<Key, seq<byte>>, hits: nat, misses: nat)

  const EMPTY := State(map[], map[], map[], map[], 0, 0)

  /** One call, with the clock readings it makes and the entries it would evict. */
  datatype Op =
    | Insert(key: Key, data: seq<byte>, slot: u64, ttl: u64, now: u64, victim1: Key, victim2: Key)
    | Get(key: Key, now1: u64, now2: u64, now3: u64, victim: Key)

  /** Disk tier lookup: the metadata, and failing that a file left on disk with an hour to live. */
  function DiskGet(s: State, k: Key, now: u64): Option<Entry> {
    if k in s.l3 then TierGet(s.l3, k, now)
    else if k in s.files then Some(NewEntry(s.files[k], 0, 3600, now))
    else None
  }

  function AfterDiskGet(s: State, k: Key, now: u64): State {
    if k in s.l3 then
      s.(l3 := TierAfterGet(s.l3, k, now), files := if Expired(s.l3[k], now) then s.files - {k} else s.files)
    else if k in s.files then s.(l3 := s.l3[k := NewEntry(s.files[k], 0, 3600, now)])
    else s
  }

  function Lookup(s: State, op: Op): Option<Entry>
    requires op.Get?
  {
    var r1 := TierGet(s.l1, op.key, op.now1);
    if r1.Some? then r1 else LookupBelowL1(s, op.key, op.now2, op.now3)
  }

  /** The rest of a lookup that missed the first tier. */
  function AfterL1Miss(cfg: Config, s: State, key: Key, now2: u64, now3: u64, victim: Key): State {
    var r2 := TierGet(s.l2, key, now2);
    var s2 := s.(l2 := TierAfterGet(s.l2, key, now2));
    if r2.Some? then s2.(hits := s.hits + 1, l1 := TierInsert(s.l1, cfg.l1Size, key, r2.value, victim))
    else
      var r3 := DiskGet(s2, key, now3);
      var s3 := AfterDiskGet(s2, key, now3);
      if r3.Some? then s3.(hits := s.hits + 1, l2 := TierInsert(s2.l2, cfg.l2Size, key, r3.value, victim))
      else s3.(misses := s.misses + 1)
  }

  function LookupBelowL1(s: State, key: Key, now2: u64, now3: u64): Option<Entry> {
    var r2 := TierGet(s.l2, key, now2);
    if r2.Some? then r2 else DiskGet(s, key, now3)
  }

  function Apply(cfg: Config, s: State, op: Op): State {
    match op
    case Insert(key, data, slot, ttl, now, victim1, victim2) =>
      var e := NewEntry(data, slot, ttl, now);
      State(TierInsert(s.l1, cfg.l1Size, key, e, victim1), TierInsert(s.l2, cfg.l2Size, key, e, victim2),
            s.l3[key := e], s.files[key := data], s.hits, s.misses)
    case Get(key, now1, now2, now3, victim) =>
      var s1 := s.(l1 := TierAfterGet(s.l1, key, now1));
      if TierGet(s.l1, key, now1).Some? then s1.(hits := s.hits + 1)
      else AfterL1Miss(cfg, s1, key, now2, now3, victim)
  }

  function Exec(cfg: Config, ops: seq<Op>): State {
    if ops == [] then EMPTY else Apply(cfg, Exec(cfg, ops[..|ops| - 1]), ops[|ops| - 1])
  }

  /** The latest insert of a key, which is all a plain map with expiry remembers. */
  function LatestInsert(ops: seq<Op>, k: Key): Option<Entry> {
    if ops == [] then None
    else
      var op := ops[|ops| - 1];
      if op.Insert? && op.key == k then Some(NewEntry(op.data, op.slot, op.ttl, op.now))
      else LatestInsert(ops[..|ops| - 1], k)
  }

  function StartTime(op: Op): u64 {
    if op.Insert? then op.now else op.now1
  }

  function EndTime(op: Op): u64 {
    if op.Insert? then op.now else op.now3
  }

  /** The clock never goes back, within a call and from call to call. */
  predicate ClockMonotone(ops: seq<Op>) {
    && (forall op <- ops :: op.Get? ==> op.now1 <= op.now2 <= op.now3)
    && (forall i :: 0 < i < |ops| ==> EndTime(ops[i - 1]) <= StartTime(ops[i]))
  }

  /** Same payload, slot and deadline, whatever the access counters say. */
  predicate SamePayload(e: Entry, f: Entry) {
    e.data == f.data && e.slot == f.slot && e.createdAt == f.createdAt && e.ttl == f.ttl
  }

  predicate Faithful(t: Tier, ops: seq<Op>, k: Key) {
    k in t ==> LatestInsert(ops, k).Some? && SamePayload(t[k], LatestInsert(ops, k).value)
  }

  predicate DiskComplete(s: State, ops: seq<Op>, k: Key, now: u64) {
    LatestInsert(ops, k).Some? && !Expired(LatestInsert(ops, k).value, now) ==> k in s.l3
  }

  /** Every tier holds only the latest insert of `k`, and the disk tier holds it until it expires. */
  predicate KeyInv(s: State, ops: seq<Op>, k: Key) {
    && Faithful(s.l1, ops, k) && Faithful(s.l2, ops, k) && Faithful(s.l3, ops, k)
    && (k in s.files <==> k in s.l3)
    && (ops != [] ==> DiskComplete(s, ops, k, EndTime(ops[|ops| - 1])))
  }

  lemma {:induction false} RunInv(cfg: Config, ops: seq<Op>, k: Key)
    requires ClockMonotone(ops)
    ensures KeyInv(Exec(cfg, ops), ops, k)
  {
    if ops != [] {
      var front, op := ops[..|ops| - 1], ops[|ops| - 1];
      RunInv(cfg, front, k);
      RunInv(cfg, front, op.key);
      assert op in ops;
      StepInv(cfg, Exec(cfg, front), front, op, k);
    }
  }

  lemma LatestSnoc(front: seq<Op>, op: Op, k: Key)
    ensures LatestInsert(front + [op], k) ==
      if op.Insert? && op.key == k then Some(NewEntry(op.data, op.slot, op.ttl, op.now)) else LatestInsert(front, k)
  {
    assert (front + [op])[..|front|] == front;
  }

  lemma InsertInv(cfg: Config, s: State, front: seq<Op>, op: Op, k: Key)
    requires op.Insert? && KeyInv(s, front, k)
    requires front != [] ==> EndTime(front[|front| - 1]) <= StartTime(op)
    ensures KeyInv(Apply(cfg, s, op), front + [op], k)
  {
    var ops := front + [op];
    LatestSnoc(front, op, k);
    assert front == [] ==> LatestInsert(front, k).None?;
    assert ops[|ops| - 1] == op;
    hide LatestInsert, Deadline;
    var t, e := Apply(cfg, s, op), NewEntry(op.data, op.slot, op.ttl, op.now);
    InsertHolds(s.l1, cfg.l1Size, op.key, e, op.victim1, k);
    InsertHolds(s.l2, cfg.l2Size, op.key, e, op.victim2, k);
    hide TierInsert;
    assert Faithful(t.l1, ops, k) && Faithful(t.l2, ops, k) && Faithful(t.l3, ops, k);
    if op.key != k {
      ExpiredStays(LatestInsert(front, k), if front == [] then op.now else EndTime(front[|front| - 1]), op.now);
    }
  }

  /** What has expired stays expired, so what has not expired later had not expired before. */
  lemma ExpiredStays(latest: Option<Entry>, now: u64, later: u64)
    requires now <= later
    ensures latest.Some? && Expired(latest.value, now) ==> Expired(latest.value, later)
  {
  }

  lemma SameExpiry(e: Entry, f: Entry, now: u64)
    requires SamePayload(e, f)
    ensures Expired(e, now) <==> Expired(f, now)
  {
  }

  lemma GetInv(cfg: Config, s: State, front: seq<Op>, op: Op, k: Key)
    requires op.Get? && KeyInv(s, front, k) && KeyInv(s, front, op.key)
    requires op.now1 <= op.now2 <= op.now3
    requires front != [] ==> EndTime(front[|front| - 1]) <= StartTime(op)
    ensures KeyInv(Apply(cfg, s, op), front + [op], k)
  {
    var ops := front + [op];
    LatestSnoc(front, op, k);
    assert front == [] ==> LatestInsert(front, k).None?;
    assert ops[|ops| - 1] == op;
    GetKeepsDisk(cfg, s, front, op, k);
    GetKeepsMemory(cfg, s, front, op, k);
    hide LatestInsert, Apply;
    ExpiredStays(LatestInsert(front, k), if front == [] then op.now3 else EndTime(front[|front| - 1]), op.now3);
    if k in s.l3 {
      SameExpiry(s.l3[k], LatestInsert(front, k).value, op.now3);
    }
    hide Expired;
  }

  lemma StepInv(cfg: Config, s: State, front: seq<Op>, op: Op, k: Key)
    requires KeyInv(s, front, k) && KeyInv(s, front, op.key)
    requires op.Get? ==> op.now1 <= op.now2 <= op.now3
    requires front != [] ==> EndTime(front[|front| - 1]) <= StartTime(op)
    ensures KeyInv(Apply(cfg, s, op), front + [op], k)
  {
    hide KeyInv, Apply;
    if op.Insert? {
      InsertInv(cfg, s, front, op, k);
    } else {
      GetInv(cfg, s, front, op, k);
    }
  }

  /** A lookup drops a disk entry only when it has expired. */
  lemma GetKeepsDisk(cfg: Config, s: State, front: seq<Op>, op: Op, k: Key)
    requires op.Get? && KeyInv(s, front, k) && KeyInv(s, front, op.key)
    ensures var t := Apply(cfg, s, op);
      && (k in t.l3 ==> k in s.l3 && SamePayload(t.l3[k], s.l3[k])) && (k in t.files <==> k in t.l3)
      && (k in s.l3 && !Expired(s.l3[k], op.now3) ==> k in t.l3)
  {
    hide LatestInsert;
    hide TierInsert;
    hide Deadline;
  }

  /** What a lookup leaves in a memory tier was in some tier before, with the same payload. */
  lemma GetKeepsMemory(cfg: Config, s: State, front: seq<Op>, op: Op, k: Key)
    requires op.Get? && KeyInv(s, front, k) && KeyInv(s, front, op.key)
    ensures Faithful(Apply(cfg, s, op).l1, front, k) && Faithful(Apply(cfg, s, op).l2, front, k)
  {
    hide LatestInsert;
    hide Expired;
    hide TierInsert;
    hide TierAfterGet;
    hide TierGet;
    var Get(key, now1, now2, now3, victim) := op;
    var t1, t2 := TierAfterGet(s.l1, key, now1), TierAfterGet(s.l2, key, now2);
    AfterGetHolds(s.l1, key, now1, k);
    AfterGetHolds(s.l2, key, now2, k);
    var r2, r3 := TierGet(s.l2, key, now2), DiskGet(s, key, now3);
    if r2.Some? {
      InsertHolds(t1, cfg.l1Size, key, r2.value, victim, k);
      AfterGetHolds(s.l2, key, now2, key);
    }
    if r3.Some? {
      InsertHolds(t2, cfg.l2Size, key, r3.value, victim, k);
      AfterGetHolds(s.l3, key, now3, key);
    }
  }

  lemma AfterGetHolds(t: Tier, key: Key, now: u64, k: Key)
    ensures k in TierAfterGet(t, key, now) ==> k in t && SamePayload(TierAfterGet(t, key, now)[k], t[k])
    ensures TierGet(t, key, now).Some? ==> key in t && SamePayload(TierGet(t, key, now).value, t[key])
  {
  }

  lemma InsertHolds(t: Tier, maxSize: nat, key: Key, e: Entry, victim: Key, k: Key)
    ensures var u := TierInsert(t, maxSize, key, e, victim);
      k in u ==> if k == key then u[k] == e else k in t && u[k] == t[k]
  {
  }

  /**
   The cache refines a plain map with expiry: a lookup returns the payload of the latest insert of
   the key exactly when that insert has a nonzero, unexpired time to live, whatever was evicted or
   promoted before.  Should the clock tick during the call, the answer is that of some reading.
   */
  lemma RefinesMapWithExpiry(cfg: Config, ops: seq<Op>, get: Op)
    requires get.Get? && ClockMonotone(ops + [get])
    ensures var r := Lookup(Exec(cfg, ops), get); var latest := LatestInsert(ops, get.key);
      && (latest.None? ==> r.None?)
      && (latest.Some? && Expired(latest.value, get.now1) ==> r.None?)
      && (latest.Some? && !Expired(latest.value, get.now3) ==> r.Some?)
      && (r.Some? ==> latest.Some? && SamePayload(r.value, latest.value))
  {
    assert forall op <- ops :: op in ops + [get];
    assert get in ops + [get];
    assert forall i :: 0 <= i < |ops| ==> ops[i] == (ops + [get])[i];
    assert (ops + [get])[|ops|] == get;
    RunInv(cfg, ops, get.key);
    hide Exec;
    hide KeyInv;
    hide LatestInsert;
    hide Lookup;
    AnswerIsLatest(Exec(cfg, ops), ops, get);
  }

  lemma AnswerIsLatest(s: State, ops: seq<Op>, get: Op)
    requires get.Get? && get.now1 <= get.now2 <= get.now3 && KeyInv(s, ops, get.key)
    requires ops != [] ==> EndTime(ops[|ops| - 1]) <= get.now1
    ensures var r := Lookup(s, get); var latest := LatestInsert(ops, get.key);
      && (latest.None? ==> r.None?)
      && (latest.Some? && Expired(latest.value, get.now1) ==> r.None?)
      && (latest.Some? && !Expired(latest.value, get.now3) ==> r.Some?)
      && (r.Some? ==> latest.Some? && SamePayload(r.value, latest.value))
  {
    assert ops == [] ==> LatestInsert(ops, get.key).None?;
    var latest := LatestInsert(ops, get.key);
    hide LatestInsert;
    ExpiredStays(latest, get.now1, get.now2);
    ExpiredStays(latest, get.now2, get.now3);
    if ops != [] {
      ExpiredStays(latest, EndTime(ops[|ops| - 1]), get.now3);
    }
    TierAnswers(s.l1, ops, get.key, get.now1);
    TierAnswers(s.l2, ops, get.key, get.now2);
    TierAnswers(s.l3, ops, get.key, get.now3);
    hide Expired, TierGet;
  }

  /** What one tier that holds only the latest insert answers. */
  lemma TierAnswers(t: Tier, ops: seq<Op>, k: Key, now: u64)
    requires Faithful(t, ops, k)
    ensures var r, latest := TierGet(t, k, now), LatestInsert(ops, k);
      && (r.Some? ==> latest.Some? && SamePayload(r.value, latest.value) && !Expired(latest.value, now))
      && (k in t && r.None? ==> latest.Some? && Expired(latest.value, now))
  {
    hide LatestInsert;
    if k in t {
      SameExpiry(t[k], LatestInsert(ops, k).value, now);
    }
  }

  // ---------------------------------------------------------------- in the fields of the calls

  /** What 64 bits keep of a sum of two 64-bit numbers. */
  function Wrapped(x: nat): nat {
    if x < 0x1_0000_0000_0000_0000 then x else x - 0x1_0000_0000_0000_0000
  }

  /** No time to live was given, or the clock is past creation time plus it. */
  predicate RunOut(created: u64, ttl: u64, now: u64) {
    ttl == 0 || Wrapped(created + ttl) < now
  }

  lemma ExpiredIsRunOut(e: Entry, now: u64)
    ensures Expired(e, now) <==> RunOut(e.createdAt, e.ttl, now)
  {
    var x := e.createdAt + e.ttl;
    if x >= U64_RANGE {
      assert x == U64_RANGE + (x - U64_RANGE);
    }
  }

  /** Call `i` is the last insert of `k`. */
  predicate LastInsertAt(ops: seq<Op>, k: Key, i: nat) {
    && i < |ops| && ops[i].Insert? && ops[i].key == k
    && forall j :: i < j < |ops| ==> !(ops[j].Insert? && ops[j].key == k)
  }

  lemma {:induction false} LatestInsertIsAt(ops: seq<Op>, k: Key, i: nat)
    requires LastInsertAt(ops, k, i)
    ensures LatestInsert(ops, k) == Some(Entry(ops[i].data, ops[i].now, ops[i].slot, 0, ops[i].now, ops[i].ttl))
  {
    if i < |ops| - 1 {
      LatestInsertIsAt(ops[..|ops| - 1], k, i);
    }
  }

  lemma {:induction false} NeverInserted(ops: seq<Op>, k: Key)
    requires forall op <- ops :: !(op.Insert? && op.key == k)
    ensures LatestInsert(ops, k).None?
  {
    if ops != [] {
      assert ops[|ops| - 1] in ops && forall op <- ops[..|ops| - 1] :: op in ops;
      NeverInserted(ops[..|ops| - 1], k);
    }
  }

  /** A get answers what the last insert of its key was given, created when it was made: it finds it while its
      time to live runs through the whole call, and nothing once that had run out when the call began. */
  lemma AnswersLastInsert(cfg: Config, ops: seq<Op>, get: Op, i: nat)
    requires get.Get? && ClockMonotone(ops + [get]) && LastInsertAt(ops, get.key, i)
    ensures var r, ins := Lookup(Exec(cfg, ops), get), ops[i];
      && (r.Some? ==>
            r.value.data == ins.data && r.value.slot == ins.slot && r.value.ttl == ins.ttl && r.value.createdAt == ins.now)
      && (!RunOut(ins.now, ins.ttl, get.now3) ==> r.Some?)
      && (RunOut(ins.now, ins.ttl, get.now1) ==> r.None?)
  {
    RefinesMapWithExpiry(cfg, ops, get);
    LatestInsertIsAt(ops, get.key, i);
    hide Exec, Lookup, LatestInsert, ClockMonotone, LastInsertAt, Expired, RunOut;
    ExpiredIsRunOut(LatestInsert(ops, get.key).value, get.now1);
    ExpiredIsRunOut(LatestInsert(ops, get.key).value, get.now3);
  }

  /** And nothing where the key was never inserted. */
  lemma AnswersNothing(cfg: Config, ops: seq<Op>, get: Op)
    requires get.Get? && ClockMonotone(ops + [get]) && forall op <- ops :: !(op.Insert? && op.key == get.key)
    ensures Lookup(Exec(cfg, ops), get).None?
  {
    RefinesMapWithExpiry(cfg, ops, get);
    NeverInserted(ops, get.key);
  }

  // ---------------------------------------------------------------- one call, tier by tier

  predicate Holds(t: Tier, k: Key, now: u64) {
    k in t && !RunOut(t[k].createdAt, t[k].ttl, now)
  }

  /** A store at capacity loses the victim, and otherwise nothing. */
  predicate Stored(t: Tier, u: Tier, maxSize: nat, k: Key, e: Entry, victim: Key) {
    && k in u && u[k] == e
    && (forall x <- u :: x != k ==> x in t && u[x] == t[x])
    && forall x <- t :: x in u || (|t| >= maxSize && x == victim)
  }

  lemma InsertIsStored(t: Tier, maxSize: nat, k: Key, e: Entry, victim: Key)
    ensures Stored(t, TierInsert(t, maxSize, k, e, victim), maxSize, k, e, victim)
    ensures |t| >= maxSize && victim != k ==> victim !in TierInsert(t, maxSize, k, e, victim)
  {
  }

  lemma LooksUp(t: Tier, k: Key, now: u64)
    ensures if Holds(t, k, now) then
        && TierGet(t, k, now) == Some(t[k].(accessCount := t[k].accessCount + 1, lastAccess := now))
        && TierAfterGet(t, k, now) == t[k := TierGet(t, k, now).value]
      else TierGet(t, k, now).None? && TierAfterGet(t, k, now) == t - {k}
  {
    if k in t {
      ExpiredIsRunOut(t[k], now);
    }
    hide Expired, RunOut;
    assert k !in t ==> t - {k} == t;
  }

  /** An insert reaches all three tiers and the disk, created now and not yet accessed. */
  lemma InsertReachesAll(cfg: Config, s: State, ins: Op)
    requires ins.Insert?
    ensures var t, e := Apply(cfg, s, ins), Entry(ins.data, ins.now, ins.slot, 0, ins.now, ins.ttl);
      && Stored(s.l1, t.l1, cfg.l1Size, ins.key, e, ins.victim1)
      && Stored(s.l2, t.l2, cfg.l2Size, ins.key, e, ins.victim2)
      && t.l3 == s.l3[ins.key := e] && t.files == s.files[ins.key := ins.data]
      && t.hits == s.hits && t.misses == s.misses
  {
    var e := NewEntry(ins.data, ins.slot, ins.ttl, ins.now);
    InsertIsStored(s.l1, cfg.l1Size, ins.key, e, ins.victim1);
    InsertIsStored(s.l2, cfg.l2Size, ins.key, e, ins.victim2);
    hide TierInsert, Stored;
  }

  /** A get that the first tier answers touches the entry there and nothing else. */
  lemma FirstTierAnswers(cfg: Config, s: State, get: Op)
    requires get.Get? && Holds(s.l1, get.key, get.now1)
    ensures var t, r := Apply(cfg, s, get), Lookup(s, get);
      && r == Some(s.l1[get.key].(accessCount := s.l1[get.key].accessCount + 1, lastAccess := get.now1))
      && t == s.(l1 := s.l1[get.key := r.value], hits := s.hits + 1)
  {
    LooksUp(s.l1, get.key, get.now1);
  }

  /** One that only the second tier answers puts the touched entry in the first tier too. */
  lemma SecondTierPromotes(cfg: Config, s: State, get: Op)
    requires get.Get? && !Holds(s.l1, get.key, get.now1) && Holds(s.l2, get.key, get.now2)
    ensures var t, r := Apply(cfg, s, get), Lookup(s, get);
      && r == Some(s.l2[get.key].(accessCount := s.l2[get.key].accessCount + 1, lastAccess := get.now2))
      && Stored(s.l1 - {get.key}, t.l1, cfg.l1Size, get.key, r.value, get.victim)
      && t.l2 == s.l2[get.key := r.value]
      && t.l3 == s.l3 && t.files == s.files && t.hits == s.hits + 1 && t.misses == s.misses
  {
    LooksUp(s.l1, get.key, get.now1);
    LooksUp(s.l2, get.key, get.now2);
    hide TierGet, TierAfterGet, Holds;
    InsertIsStored(s.l1 - {get.key}, cfg.l1Size, get.key, Lookup(s, get).value, get.victim);
    hide TierInsert, Stored;
  }

  /** What the disk tier answers: its own entry while it runs, else a file without metadata, with an hour to live. */
  function OnDisk(s: State, k: Key, now: u64): Option<Entry> {
    if Holds(s.l3, k, now) then Some(s.l3[k].(accessCount := s.l3[k].accessCount + 1, lastAccess := now))
    else if k !in s.l3 && k in s.files then Some(Entry(s.files[k], now, 0, 0, now, 3600))
    else None
  }

  lemma LooksUpOnDisk(s: State, k: Key, now: u64)
    ensures var t := AfterDiskGet(s, k, now);
      && DiskGet(s, k, now) == OnDisk(s, k, now)
      && t.l1 == s.l1 && t.l2 == s.l2 && t.hits == s.hits && t.misses == s.misses
      && if OnDisk(s, k, now).Some? then t.l3 == s.l3[k := OnDisk(s, k, now).value] && t.files == s.files
         else t.l3 == s.l3 - {k} && t.files == s.files - {k}
  {
    LooksUp(s.l3, k, now);
    if k in s.l3 {
      ExpiredIsRunOut(s.l3[k], now);
    }
    hide TierGet, TierAfterGet, Expired, RunOut;
    assert k !in s.l3 ==> s.l3 - {k} == s.l3;
    assert k !in s.files ==> s.files - {k} == s.files;
  }

  /** One that the disk answers puts the entry in the second tier, and one that nothing answers drops what had run
      out from all tiers, and its file. */
  lemma DiskAnswers(cfg: Config, s: State, get: Op)
    requires get.Get? && !Holds(s.l1, get.key, get.now1) && !Holds(s.l2, get.key, get.now2)
    ensures var t, r := Apply(cfg, s, get), Lookup(s, get);
      && r == OnDisk(s, get.key, get.now3) && t.l1 == s.l1 - {get.key}
      && if r.Some? then
           && Stored(s.l2 - {get.key}, t.l2, cfg.l2Size, get.key, r.value, get.victim)
           && t.l3 == s.l3[get.key := r.value] && t.files == s.files && t.hits == s.hits + 1 && t.misses == s.misses
         else
           && t.l2 == s.l2 - {get.key} && t.l3 == s.l3 - {get.key} && t.files == s.files - {get.key}
           && t.hits == s.hits && t.misses == s.misses + 1
  {
    LooksUp(s.l1, get.key, get.now1);
    LooksUp(s.l2, get.key, get.now2);
    var s2 := s.(l1 := s.l1 - {get.key}, l2 := s.l2 - {get.key});
    LooksUpOnDisk(s2, get.key, get.now3);
    LooksUpOnDisk(s, get.key, get.now3);
    hide TierGet, TierAfterGet, Holds, DiskGet, AfterDiskGet, OnDisk;
    assert OnDisk(s2, get.key, get.now3) == OnDisk(s, get.key, get.now3) by { SameOnDisk(s, s2, get.key, get.now3); }
    if OnDisk(s, get.key, get.now3).Some? {
      InsertIsStored(s2.l2, cfg.l2Size, get.key, OnDisk(s, get.key, get.now3).value, get.victim);
    }
    hide TierInsert, Stored;
  }

  lemma SameOnDisk(s: State, t: State, k: Key, now: u64)
    requires t.l3 == s.l3 && t.files == s.files
    ensures OnDisk(t, k, now) == OnDisk(s, k, now)
  {
  }

  lemma StoredSize(t: Tier, u: Tier, maxSize: nat, k: Key, e: Entry, victim: Key)
    requires u == TierInsert(t, maxSize, k, e, victim) && |t| <= Capacity(maxSize)
    requires t != map[] && |t| >= maxSize ==> victim in t
    ensures |u| <= Capacity(maxSize)
  {
    var rest := if |t| >= maxSize then t - {victim} else t;
    assert rest.Keys == if |t| >= maxSize then t.Keys - {victim} else t.Keys;
    assert u.Keys == rest.Keys + {k};
  }

  /** A tier of size zero still holds what was stored last. */
  function Capacity(maxSize: nat): nat {
    if maxSize == 0 then 1 else maxSize
  }

  // ---------------------------------------------------------------- the objects

  datatype Policy = Lru | Lfu

  function Rank(p: Policy, e: Entry): nat {
    if p.Lru? then e.lastAccess else e.accessCount
  }

  /** `v` is an entry the policy may evict: none was used less recently, or less often. */
  predicate Evictable(p: Policy, t: Tier, v: Key) {
    && v in t
    && match p
       case Lru => forall k <- t :: t[v].lastAccess <= t[k].lastAccess
       case Lfu => forall k <- t :: t[v].accessCount <= t[k].accessCount
  }

  lemma LeastRank(p: Policy, t: Tier, v: Key)
    requires v in t && forall k <- t :: Rank(p, t[v]) <= Rank(p, t[k])
    ensures Evictable(p, t, v)
  {
  }

  lemma EvictFromNone(t: Tier, v: Key)
    ensures t == map[] ==> t - {v} == t
  {
  }

  /** `L1Cache` (least recently used) and `L2Cache` (least frequently used). */
  class MemoryTier {
    var entries: Tier
    var currentSize: nat
    const maxSize: nat
    const policy: Policy

    ghost predicate Valid()
      reads this
    {
      currentSize == |entries| <= Capacity(maxSize)
    }

    constructor (maxSize: nat, policy: Policy)
      ensures Valid() && entries == map[] && this.maxSize == maxSize && this.policy == policy
    {
      entries, currentSize := map[], 0;
      this.maxSize, this.policy := maxSize, policy;
    }

    /** Finds an entry of least rank. */
    method PickVictim() returns (v: Key)
      requires entries != map[]
      ensures Evictable(policy, entries, v)
    {
      v :| v in entries;
      var todo := entries.Keys - {v};
      while todo != {}
        invariant todo <= entries.Keys && v in entries
        invariant forall k <- entries :: k in todo || Rank(policy, entries[v]) <= Rank(policy, entries[k])
        decreases todo
      {
        var k :| k in todo;
        if Rank(policy, entries[k]) < Rank(policy, entries[v]) {
          v := k;
        }
        todo := todo - {k};
      }
      LeastRank(policy, entries, v);
    }

    /** `evict_lru` and `evict_lfu`, called at the limit. */
    method EvictIfFull() returns (ghost victim: Key)
      modifies this
      ensures entries == if |old(entries)| >= maxSize then old(entries) - {victim} else old(entries)
      ensures old(entries) != map[] && |old(entries)| >= maxSize ==> Evictable(policy, old(entries), victim)
    {
      hide Evictable;
      victim := 0;
      if |entries| >= maxSize && entries != map[] {
        var v := PickVictim();
        victim := v;
        entries := entries - {v};
      } else {
        EvictFromNone(entries, victim);
      }
    }

    method Insert(k: Key, e: Entry) returns (previous: Option<Entry>, ghost victim: Key)
      requires Valid()
      modifies this
      ensures Valid() && entries == TierInsert(old(entries), maxSize, k, e, victim)
      ensures |entries| <= if maxSize == 0 then 1 else maxSize
      ensures |old(entries)| < maxSize ==>
        entries == old(entries)[k := e] && previous == if k in old(entries) then Some(old(entries)[k]) else None
      ensures old(entries) != map[] && |old(entries)| >= maxSize ==>
        && Evictable(policy, old(entries), victim) && entries == (old(entries) - {victim})[k := e]
        && previous == if k in old(entries) && k != victim then Some(old(entries)[k]) else None
    {
      ghost var was := entries;
      victim := EvictIfFull();
      assert was != map[] && |was| >= maxSize ==> victim in was;
      hide Evictable;
      previous := if k in entries then Some(entries[k]) else None;
      entries := entries[k := e];
      currentSize := |entries|;
      StoredSize(was, entries, maxSize, k, e, victim);
    }

    method Get(k: Key, now: u64) returns (r: Option<Entry>)
      requires Valid()
      modifies this
      ensures Valid() && r == TierGet(old(entries), k, now) && entries == TierAfterGet(old(entries), k, now)
    {
      if k !in entries {
        return None;
      }
      if Expired(entries[k], now) {
        entries := entries - {k};
        currentSize := |entries|;
        return None;
      }
      r := Some(Accessed(entries[k], now));
      entries := entries[k := r.value];
    }
  }

  /** `QueryResultCache`, with the disk tier's metadata and files as plain maps. */
  class Cache {
    const l1: MemoryTier
    const l2: MemoryTier
    var l3: Tier
    var files: map<Key, seq<byte>>
    var hits: nat
    var misses: nat

    ghost predicate Valid()
      reads this, l1, l2
    {
      l1 != l2 && l1.Valid() && l2.Valid() && l1.policy == Lru && l2.policy == Lfu
    }

    ghost function View(): State
      reads this, l1, l2
    {
      State(l1.entries, l2.entries, l3, files, hits, misses)
    }

    ghost function Cfg(): Config {
      Config(l1.maxSize, l2.maxSize)
    }

    constructor (l1Size: nat, l2Size: nat)
      ensures Valid() && View() == EMPTY && Cfg() == Config(l1Size, l2Size) && fresh(l1) && fresh(l2)
    {
      l1 := new MemoryTier(l1Size, Lru);
      l2 := new MemoryTier(l2Size, Lfu);
      l3, files, hits, misses := map[], map[], 0, 0;
    }

    /** `insert`: all three tiers get the entry. */
    method Insert(key: Key, data: seq<byte>, slot: u64, ttl: u64, now: u64) returns (ghost op: Op)
      requires Valid()
      modifies this, l1, l2
      ensures Valid() && View() == Apply(Cfg(), old(View()), op)
      ensures op.Insert? && op == Op.Insert(key, data, slot, ttl, now, op.victim1, op.victim2)
      ensures var t := old(l1.entries);
        |t| >= l1.maxSize && t != map[] ==> op.victim1 in t && forall k <- t :: t[op.victim1].lastAccess <= t[k].lastAccess
      ensures var t := old(l2.entries);
        |t| >= l2.maxSize && t != map[] ==> op.victim2 in t && forall k <- t :: t[op.victim2].accessCount <= t[k].accessCount
    {
      hide TierInsert, NewEntry, Capacity;
      var e := NewEntry(data, slot, ttl, now);
      var _, victim1 := l1.Insert(key, e);
      var _, victim2 := l2.Insert(key, e);
      files := files[key := data];
      l3 := l3[key := e];
      op := Op.Insert(key, data, slot, ttl, now, victim1, victim2);
    }

    /** The disk tier's `get`. */
    method DiskLookup(key: Key, now: u64) returns (r: Option<Entry>)
      modifies this`l3, this`files
      ensures r == DiskGet(old(View()), key, now)
      ensures View() == AfterDiskGet(old(View()), key, now)
    {
      if key in l3 {
        if Expired(l3[key], now) {
          files := files - {key};
          l3 := l3 - {key};
          return None;
        }
        r := Some(Accessed(l3[key], now));
        l3 := l3[key := r.value];
      } else if key in files {
        r := Some(NewEntry(files[key], 0, 3600, now));
        l3 := l3[key := r.value];
      } else {
        r := None;
      }
    }

    /** `get`: first tier that has the entry, promoting it one level up.  A promotion at capacity evicts the least
        recently used entry of the first tier, the least often used one of the second. */
    method Get(key: Key, now1: u64, now2: u64, now3: u64) returns (r: Option<Entry>, ghost op: Op)
      requires Valid()
      modifies this, l1, l2
      ensures Valid() && op.Get? && op == Op.Get(key, now1, now2, now3, op.victim)
      ensures View() == Apply(Cfg(), old(View()), op) && r == Lookup(old(View()), op)
      ensures var t := TierAfterGet(old(l1.entries), key, now1);
        TierGet(old(l1.entries), key, now1).None? && TierGet(old(l2.entries), key, now2).Some? &&
        |t| >= l1.maxSize && t != map[] ==>
          op.victim in t && forall k <- t :: t[op.victim].lastAccess <= t[k].lastAccess
      ensures var t := TierAfterGet(old(l2.entries), key, now2);
        TierGet(old(l1.entries), key, now1).None? && TierGet(old(l2.entries), key, now2).None? && r.Some? &&
        |t| >= l2.maxSize && t != map[] ==>
          op.victim in t && forall k <- t :: t[op.victim].accessCount <= t[k].accessCount
    {
      hide TierInsert, TierAfterGet, TierGet, AfterL1Miss, AfterDiskGet;
      op := Op.Get(key, now1, now2, now3, 0);
      r := l1.Get(key, now1);
      if r.Some? {
        hits := hits + 1;
        return;
      }
      ghost var victim;
      r, victim := GetBelowL1(key, now2, now3);
      op := op.(victim := victim);
    }

    method GetBelowL1(key: Key, now2: u64, now3: u64) returns (r: Option<Entry>, ghost victim: Key)
      requires Valid()
      modifies this, l1, l2
      ensures Valid() && View() == AfterL1Miss(Cfg(), old(View()), key, now2, now3, victim)
      ensures r == LookupBelowL1(old(View()), key, now2, now3)
      ensures TierGet(old(l2.entries), key, now2).Some? && |old(l1.entries)| >= l1.maxSize && old(l1.entries) != map[] ==>
        Evictable(Lru, old(l1.entries), victim)
      ensures var t := TierAfterGet(old(l2.entries), key, now2);
        TierGet(old(l2.entries), key, now2).None? && r.Some? && |t| >= l2.maxSize && t != map[] ==>
          Evictable(Lfu, t, victim)
    {
      hide TierInsert, TierAfterGet, TierGet, Evictable, Expired;
      victim := 0;
      r := l2.Get(key, now2);
      if r.Some? {
        hits := hits + 1;
        var _, v := l1.Insert(key, r.value);
        victim := v;
        return;
      }
      r := DiskLookup(key, now3);
      if r.Some? {
        hits := hits + 1;
        var _, v := l2.Insert(key, r.value);
        victim := v;
        return;
      }
      misses := misses + 1;
    }
  }
}
