/**
 The query cache under concurrent calls.  A get and an insert take the lock of one tier after another, so
 a get can carry an entry it has read past an insert of the same key and promote it afterwards.
 */
module QueryCacheThreads {
  import opened Bytes
  import opened Wrappers
  import opened QueryCache

  /** Where a thread stands between two lock sections. */
  datatype Thread =
    | Idle
    | MissedL1(key: Key) | MissedL2(key: Key)
    | PromotingToL1(key: Key, e: Entry) | PromotingToL2(key: Key, e: Entry)
    | InsertedL1(key: Key, e: Entry) | InsertedL2(key: Key, e: Entry) | WroteFile(key: Key, e: Entry)

  /** `latest` is the entry of the last insert of each key to have begun, and `answers` what gets returned. */
  datatype System = System(
    l1: Tier, l2: Tier, l3: Tier, files: map<Key, seq<byte>>,
    threads: map<nat, Thread>, latest: map<Key, Entry>, answers: map<nat, Option<Entry>>)

  datatype Action =
    | BeginInsert(t: nat, key: Key, data: seq<byte>, slot: u64, ttl: u64, now: u64, victim: Key)
    | InsertL2(t: nat, victim: Key) | WriteDisk(t: nat) | RecordDisk(t: nat)
    | LookL1(t: nat, key: Key, now: u64) | LookL2(t: nat, now: u64) | LookL3(t: nat, now: u64)
    | Promote(t: nat, victim: Key)

  const START := System(map[], map[], map[], map[], map[], map[], map[])

  function ThreadOf(s: System, t: nat): Thread {
    if t in s.threads then s.threads[t] else Idle
  }

  function To(s: System, t: nat, th: Thread): System {
    s.(threads := s.threads[t := th])
  }

  function Answer(s: System, t: nat, r: Option<Entry>, th: Thread): System {
    s.(threads := s.threads[t := th], answers := s.answers[t := r])
  }

  /** The tiers as the sequential model sees them. */
  function Tiers(s: System): State {
    State(s.l1, s.l2, s.l3, s.files, 0, 0)
  }

  /** The disk section of a get. */
  function AfterDisk(s: System, key: Key, now: u64): System {
    s.(l3 := AfterDiskGet(Tiers(s), key, now).l3, files := AfterDiskGet(Tiers(s), key, now).files)
  }

  function AfterBegin(cfg: Config, s: System, t: nat, key: Key, e: Entry, victim: Key): System {
    if ThreadOf(s, t) != Idle then s
    else To(s, t, InsertedL1(key, e)).(l1 := TierInsert(s.l1, cfg.l1Size, key, e, victim), latest := s.latest[key := e])
  }

  function AfterInsertL2(cfg: Config, s: System, t: nat, victim: Key): System {
    match ThreadOf(s, t)
    case InsertedL1(key, e) => To(s, t, InsertedL2(key, e)).(l2 := TierInsert(s.l2, cfg.l2Size, key, e, victim))
    case _ => s
  }

  function AfterWriteDisk(s: System, t: nat): System {
    match ThreadOf(s, t)
    case InsertedL2(key, e) => To(s, t, WroteFile(key, e)).(files := s.files[key := e.data])
    case _ => s
  }

  function AfterRecordDisk(s: System, t: nat): System {
    match ThreadOf(s, t)
    case WroteFile(key, e) => To(s, t, Idle).(l3 := s.l3[key := e])
    case _ => s
  }

  function AfterLookL1(s: System, t: nat, key: Key, now: u64): System {
    if ThreadOf(s, t) != Idle then s
    else
      var r := TierGet(s.l1, key, now);
      var s1 := s.(l1 := TierAfterGet(s.l1, key, now));
      if r.Some? then Answer(s1, t, r, Idle) else To(s1, t, MissedL1(key))
  }

  function AfterLookL2(s: System, t: nat, now: u64): System {
    match ThreadOf(s, t)
    case MissedL1(key) =>
      var r := TierGet(s.l2, key, now);
      var s1 := s.(l2 := TierAfterGet(s.l2, key, now));
      if r.Some? then Answer(s1, t, r, PromotingToL1(key, r.value)) else To(s1, t, MissedL2(key))
    case _ => s
  }

  function AfterLookL3(s: System, t: nat, now: u64): System {
    match ThreadOf(s, t)
    case MissedL2(key) =>
      var r := DiskGet(Tiers(s), key, now);
      Answer(AfterDisk(s, key, now), t, r, if r.Some? then PromotingToL2(key, r.value) else Idle)
    case _ => s
  }

  function AfterPromote(cfg: Config, s: System, t: nat, victim: Key): System {
    match ThreadOf(s, t)
    case PromotingToL1(key, e) => To(s, t, Idle).(l1 := TierInsert(s.l1, cfg.l1Size, key, e, victim))
    case PromotingToL2(key, e) => To(s, t, Idle).(l2 := TierInsert(s.l2, cfg.l2Size, key, e, victim))
    case _ => s
  }

  function Step(cfg: Config, s: System, a: Action): System {
    match a
    case BeginInsert(t, key, data, slot, ttl, now, victim) =>
      AfterBegin(cfg, s, t, key, NewEntry(data, slot, ttl, now), victim)
    case InsertL2(t, victim) => AfterInsertL2(cfg, s, t, victim)
    case WriteDisk(t) => AfterWriteDisk(s, t)
    case RecordDisk(t) => AfterRecordDisk(s, t)
    case LookL1(t, key, now) => AfterLookL1(s, t, key, now)
    case LookL2(t, now) => AfterLookL2(s, t, now)
    case LookL3(t, now) => AfterLookL3(s, t, now)
    case Promote(t, victim) => AfterPromote(cfg, s, t, victim)
  }

  function RunFrom(cfg: Config, s: System, run: seq<Action>): System {
    if run == [] then s else Step(cfg, RunFrom(cfg, s, run[..|run| - 1]), run[|run| - 1])
  }

  function Run(cfg: Config, run: seq<Action>): System {
    RunFrom(cfg, START, run)
  }

  lemma RunFromSnoc(cfg: Config, s: System, run: seq<Action>, a: Action)
    ensures RunFrom(cfg, s, run + [a]) == Step(cfg, RunFrom(cfg, s, run), a)
  {
    assert (run + [a])[..|run|] == run;
  }

  lemma {:induction false} RunFromAppend(cfg: Config, s: System, a: seq<Action>, b: seq<Action>)
    ensures RunFrom(cfg, s, a + b) == RunFrom(cfg, RunFrom(cfg, s, a), b)
  {
    hide Step;
    if b == [] {
      assert a + b == a;
    } else {
      RunFromAppend(cfg, s, a, b[..|b| - 1]);
      assert a + b == (a + b[..|b| - 1]) + [b[|b| - 1]];
      RunFromSnoc(cfg, s, a + b[..|b| - 1], b[|b| - 1]);
    }
  }

  // ---------------------------------------------------------------- calls that nothing comes between

  lemma MemorySections(cfg: Config, s: System, t: nat, key: Key, e: Entry, victim1: Key, victim2: Key)
    requires ThreadOf(s, t) == Idle
    ensures AfterInsertL2(cfg, AfterBegin(cfg, s, t, key, e, victim1), t, victim2) ==
      s.(l1 := TierInsert(s.l1, cfg.l1Size, key, e, victim1), l2 := TierInsert(s.l2, cfg.l2Size, key, e, victim2),
         threads := s.threads[t := InsertedL2(key, e)], latest := s.latest[key := e])
  {
    hide TierInsert;
    assert s.threads[t := InsertedL1(key, e)][t := InsertedL2(key, e)] == s.threads[t := InsertedL2(key, e)];
  }

  lemma DiskSections(s: System, t: nat, key: Key, e: Entry)
    requires ThreadOf(s, t) == InsertedL2(key, e)
    ensures AfterRecordDisk(AfterWriteDisk(s, t), t) ==
      s.(l3 := s.l3[key := e], files := s.files[key := e.data], threads := s.threads[t := Idle])
  {
    assert s.threads[t := WroteFile(key, e)][t := Idle] == s.threads[t := Idle];
  }

  lemma InsertSections(cfg: Config, s: System, t: nat, key: Key, e: Entry, victim1: Key, victim2: Key)
    requires ThreadOf(s, t) == Idle
    ensures AfterRecordDisk(AfterWriteDisk(AfterInsertL2(cfg, AfterBegin(cfg, s, t, key, e, victim1), t, victim2), t), t) ==
      s.(l1 := TierInsert(s.l1, cfg.l1Size, key, e, victim1), l2 := TierInsert(s.l2, cfg.l2Size, key, e, victim2),
         l3 := s.l3[key := e], files := s.files[key := e.data],
         threads := s.threads[t := Idle], latest := s.latest[key := e])
  {
    hide TierInsert, AfterBegin, AfterInsertL2, AfterWriteDisk, AfterRecordDisk;
    MemorySections(cfg, s, t, key, e, victim1, victim2);
    DiskSections(AfterInsertL2(cfg, AfterBegin(cfg, s, t, key, e, victim1), t, victim2), t, key, e);
    assert s.threads[t := InsertedL2(key, e)][t := Idle] == s.threads[t := Idle];
  }

  /** The four sections of an insert in a row are the insert of the sequential cache. */
  lemma InsertAlone(cfg: Config, s: System, t: nat, ins: Op)
    requires ThreadOf(s, t) == Idle && ins.Insert?
    ensures var Insert(key, data, slot, ttl, now, victim1, victim2) := ins;
      var s1 := Step(cfg, s, BeginInsert(t, key, data, slot, ttl, now, victim1));
      var s' := Step(cfg, Step(cfg, Step(cfg, s1, InsertL2(t, victim2)), WriteDisk(t)), RecordDisk(t));
      && Tiers(s') == Apply(cfg, Tiers(s), ins) && s'.threads == s.threads[t := Idle] && s'.answers == s.answers
      && s'.latest == s.latest[key := Entry(data, now, slot, 0, now, ttl)]
  {
    InsertSections(cfg, s, t, ins.key, NewEntry(ins.data, ins.slot, ins.ttl, ins.now), ins.victim1, ins.victim2);
    hide TierInsert, AfterBegin, AfterInsertL2, AfterWriteDisk, AfterRecordDisk;
  }

  lemma HitAlone(cfg: Config, s: System, t: nat, get: Op)
    requires ThreadOf(s, t) == Idle && get.Get? && TierGet(s.l1, get.key, get.now1).Some?
    ensures var s1 := AfterLookL1(s, t, get.key, get.now1);
      var s' := AfterPromote(cfg, AfterLookL3(AfterLookL2(s1, t, get.now2), t, get.now3), t, get.victim);
      && Tiers(s') == Apply(cfg, Tiers(s), get).(hits := 0)
      && s'.threads == s.threads[t := Idle] && s'.answers == s.answers[t := Lookup(Tiers(s), get)]
  {
    hide TierGet, TierAfterGet, TierInsert;
    var s1 := AfterLookL1(s, t, get.key, get.now1);
    assert s1.threads == s.threads[t := Idle];
    assert AfterLookL3(AfterLookL2(s1, t, get.now2), t, get.now3) == s1;
  }

  lemma SecondHits(cfg: Config, s: System, t: nat, key: Key, now1: u64, now2: u64, now3: u64, victim: Key)
    requires ThreadOf(s, t) == Idle && TierGet(s.l1, key, now1).None? && TierGet(s.l2, key, now2).Some?
    ensures var r, l1 := TierGet(s.l2, key, now2), TierAfterGet(s.l1, key, now1);
      AfterPromote(cfg, AfterLookL3(AfterLookL2(AfterLookL1(s, t, key, now1), t, now2), t, now3), t, victim) ==
        s.(l1 := TierInsert(l1, cfg.l1Size, key, r.value, victim), l2 := TierAfterGet(s.l2, key, now2),
           threads := s.threads[t := Idle], answers := s.answers[t := r])
  {
    hide TierGet, TierAfterGet, TierInsert;
    var r, s1 := TierGet(s.l2, key, now2), AfterLookL1(s, t, key, now1);
    assert s1.threads == s.threads[t := MissedL1(key)];
    var s2 := AfterLookL2(s1, t, now2);
    assert s2.threads == s.threads[t := MissedL1(key)][t := PromotingToL1(key, r.value)];
    assert AfterLookL3(s2, t, now3) == s2;
    assert s2.threads[t := Idle] == s.threads[t := Idle];
  }

  lemma SecondHitAlone(cfg: Config, s: System, t: nat, get: Op)
    requires ThreadOf(s, t) == Idle && get.Get? && TierGet(s.l1, get.key, get.now1).None?
    requires TierGet(s.l2, get.key, get.now2).Some?
    ensures var s1 := AfterLookL1(s, t, get.key, get.now1);
      var s' := AfterPromote(cfg, AfterLookL3(AfterLookL2(s1, t, get.now2), t, get.now3), t, get.victim);
      && Tiers(s') == Apply(cfg, Tiers(s), get).(hits := 0)
      && s'.threads == s.threads[t := Idle] && s'.answers == s.answers[t := Lookup(Tiers(s), get)]
  {
    SecondHits(cfg, s, t, get.key, get.now1, get.now2, get.now3, get.victim);
    hide TierGet, TierAfterGet, TierInsert, AfterLookL1, AfterLookL2, AfterLookL3, AfterPromote;
  }

  lemma MissesBoth(s: System, t: nat, key: Key, now1: u64, now2: u64)
    requires ThreadOf(s, t) == Idle && TierGet(s.l1, key, now1).None? && TierGet(s.l2, key, now2).None?
    ensures AfterLookL2(AfterLookL1(s, t, key, now1), t, now2) ==
      s.(l1 := TierAfterGet(s.l1, key, now1), l2 := TierAfterGet(s.l2, key, now2), threads := s.threads[t := MissedL2(key)])
  {
    hide TierGet, TierAfterGet;
    var s1 := AfterLookL1(s, t, key, now1);
    assert s1.threads == s.threads[t := MissedL1(key)];
    assert s.threads[t := MissedL1(key)][t := MissedL2(key)] == s.threads[t := MissedL2(key)];
  }

  lemma DiskEnds(cfg: Config, s: System, t: nat, key: Key, now: u64, victim: Key)
    requires ThreadOf(s, t) == MissedL2(key)
    ensures var r, d := DiskGet(Tiers(s), key, now), AfterDisk(s, key, now);
      AfterPromote(cfg, AfterLookL3(s, t, now), t, victim) ==
        d.(l2 := if r.Some? then TierInsert(s.l2, cfg.l2Size, key, r.value, victim) else s.l2,
           threads := s.threads[t := Idle], answers := s.answers[t := r])
  {
    hide TierInsert, DiskGet, AfterDiskGet;
    var r := DiskGet(Tiers(s), key, now);
    var th := if r.Some? then PromotingToL2(key, r.value) else Idle;
    assert AfterLookL3(s, t, now).threads == s.threads[t := th];
    assert s.threads[t := th][t := Idle] == s.threads[t := Idle];
  }

  lemma DiskIgnoresMemory(a: State, b: State, key: Key, now: u64)
    requires a.l3 == b.l3 && a.files == b.files
    ensures DiskGet(a, key, now) == DiskGet(b, key, now)
    ensures AfterDiskGet(a, key, now) ==
      a.(l3 := AfterDiskGet(b, key, now).l3, files := AfterDiskGet(b, key, now).files)
  {
    hide TierGet, TierAfterGet, Expired;
  }

  lemma SequentialDisk(cfg: Config, s: State, get: Op)
    requires get.Get? && TierGet(s.l1, get.key, get.now1).None? && TierGet(s.l2, get.key, get.now2).None?
    ensures var r, d := DiskGet(s, get.key, get.now3), AfterDiskGet(s, get.key, get.now3);
      var l2 := TierAfterGet(s.l2, get.key, get.now2);
      && Lookup(s, get) == r
      && Apply(cfg, s, get).(hits := 0, misses := 0) ==
           State(TierAfterGet(s.l1, get.key, get.now1),
                 if r.Some? then TierInsert(l2, cfg.l2Size, get.key, r.value, get.victim) else l2, d.l3, d.files, 0, 0)
  {
    var l1, l2 := TierAfterGet(s.l1, get.key, get.now1), TierAfterGet(s.l2, get.key, get.now2);
    DiskIgnoresMemory(s.(l1 := l1, l2 := l2), s, get.key, get.now3);
    DiskIgnoresMemory(s.(l1 := l1), s, get.key, get.now3);
    hide TierGet, TierAfterGet, TierInsert, DiskGet, AfterDiskGet;
  }

  lemma DiskAlone(cfg: Config, s: System, t: nat, get: Op)
    requires ThreadOf(s, t) == Idle && get.Get? && TierGet(s.l1, get.key, get.now1).None?
    requires TierGet(s.l2, get.key, get.now2).None?
    ensures var s1 := AfterLookL1(s, t, get.key, get.now1);
      var s' := AfterPromote(cfg, AfterLookL3(AfterLookL2(s1, t, get.now2), t, get.now3), t, get.victim);
      && Tiers(s') == Apply(cfg, Tiers(s), get).(hits := 0, misses := 0)
      && s'.threads == s.threads[t := Idle] && s'.answers == s.answers[t := Lookup(Tiers(s), get)]
  {
    hide TierGet, TierAfterGet, TierInsert, AfterLookL1, AfterLookL2, AfterLookL3, AfterPromote, DiskGet, AfterDiskGet;
    hide Apply, Lookup;
    MissesBoth(s, t, get.key, get.now1, get.now2);
    var s2 := AfterLookL2(AfterLookL1(s, t, get.key, get.now1), t, get.now2);
    DiskEnds(cfg, s2, t, get.key, get.now3, get.victim);
    DiskIgnoresMemory(Tiers(s2), Tiers(s), get.key, get.now3);
    SequentialDisk(cfg, Tiers(s), get);
  }

  /** And so are the sections of a get, with the sequential answer. */
  lemma GetAlone(cfg: Config, s: System, t: nat, get: Op)
    requires ThreadOf(s, t) == Idle && get.Get?
    ensures var Get(key, now1, now2, now3, victim) := get;
      var s2 := Step(cfg, Step(cfg, s, LookL1(t, key, now1)), LookL2(t, now2));
      var s' := Step(cfg, Step(cfg, s2, LookL3(t, now3)), Promote(t, victim));
      && Tiers(s') == Apply(cfg, Tiers(s), get).(hits := 0, misses := 0)
      && s'.threads == s.threads[t := Idle] && s'.answers == s.answers[t := Lookup(Tiers(s), get)]
  {
    hide AfterLookL1, AfterLookL2, AfterLookL3, AfterPromote, TierGet, TierAfterGet, TierInsert, DiskGet, AfterDiskGet;
    if TierGet(s.l1, get.key, get.now1).Some? {
      HitAlone(cfg, s, t, get);
    } else if TierGet(s.l2, get.key, get.now2).Some? {
      SecondHitAlone(cfg, s, t, get);
    } else {
      DiskAlone(cfg, s, t, get);
    }
  }

  // ---------------------------------------------------------------- which steps are harmless

  predicate Inserting(th: Thread, k: Key) {
    (th.InsertedL1? || th.InsertedL2? || th.WroteFile?) && th.key == k
  }

  predicate Promoting(th: Thread, k: Key) {
    (th.PromotingToL1? || th.PromotingToL2?) && th.key == k
  }

  /** The thread has an entry of `k` in hand that it will still store somewhere. */
  predicate Carries(th: Thread, k: Key) {
    Inserting(th, k) || Promoting(th, k)
  }

  predicate BeingInserted(s: System, k: Key) {
    exists t <- s.threads :: Inserting(s.threads[t], k)
  }

  predicate AwaitsL2(th: Thread, k: Key) {
    th.InsertedL1? && th.key == k
  }

  /** Some insert of `k` has written the first tier and not yet the second. */
  predicate L2Awaited(s: System, k: Key) {
    exists t <- s.threads :: AwaitsL2(s.threads[t], k)
  }

  /** Every thread with an entry of `k` in hand has the payload of `e`. */
  predicate AllCarry(s: System, k: Key, e: Entry) {
    forall t <- s.threads :: Carries(s.threads[t], k) ==> SamePayload(s.threads[t].e, e)
  }

  /** The entry of `k` that the section reads and the thread then promotes. */
  function ReadToPromote(s: System, a: Action, k: Key): Option<Entry> {
    if a.LookL2? && ThreadOf(s, a.t) == MissedL1(k) then TierGet(s.l2, k, a.now)
    else if a.LookL3? && ThreadOf(s, a.t) == MissedL2(k) then DiskGet(Tiers(s), k, a.now)
    else None
  }

  /** An insert of `k` begins only beside threads that carry its own payload, and what is read to be promoted
      is the latest payload. */
  predicate Harmless(s: System, a: Action, k: Key) {
    && (a.BeginInsert? && ThreadOf(s, a.t) == Idle && a.key == k ==> AllCarry(s, k, NewEntry(a.data, a.slot, a.ttl, a.now)))
    && (ReadToPromote(s, a, k).Some? ==> k in s.latest && SamePayload(ReadToPromote(s, a, k).value, s.latest[k]))
  }

  predicate HarmlessRun(cfg: Config, s: System, run: seq<Action>, k: Key) {
    run != [] ==>
      HarmlessRun(cfg, s, run[..|run| - 1], k) && Harmless(RunFrom(cfg, s, run[..|run| - 1]), run[|run| - 1], k)
  }

  // ---------------------------------------------------------------- the invariant, one key at a time

  /** What a tier holds for `k`, if anything, is the latest insert. */
  predicate UpToDate(t: Tier, latest: map<Key, Entry>, k: Key) {
    k in t ==> k in latest && SamePayload(t[k], latest[k])
  }

  predicate DiskOk(s: System, k: Key) {
    UpToDate(s.l3, s.latest, k) && (k in s.files ==> k in s.l3)
  }

  /** A tier that is not up to date is about to be written by an insert under way. */
  predicate TiersOk(s: System, k: Key) {
    && UpToDate(s.l1, s.latest, k)
    && (UpToDate(s.l2, s.latest, k) || L2Awaited(s, k))
    && (DiskOk(s, k) || BeingInserted(s, k))
  }

  predicate CarriersOk(s: System, k: Key) {
    forall t <- s.threads :: Carries(s.threads[t], k) ==> k in s.latest && SamePayload(s.threads[t].e, s.latest[k])
  }

  predicate KeyOk(s: System, k: Key) {
    TiersOk(s, k) && CarriersOk(s, k)
  }

  lemma InsertKeepsUpToDate(t: Tier, latest: map<Key, Entry>, maxSize: nat, key: Key, e: Entry, victim: Key, k: Key)
    requires UpToDate(t, latest, k) && (key == k ==> k in latest && SamePayload(e, latest[k]))
    ensures UpToDate(TierInsert(t, maxSize, key, e, victim), latest, k)
  {
  }

  lemma InsertMakesUpToDate(t: Tier, latest: map<Key, Entry>, maxSize: nat, k: Key, e: Entry, victim: Key)
    requires k in latest && SamePayload(e, latest[k])
    ensures UpToDate(TierInsert(t, maxSize, k, e, victim), latest, k)
  {
  }

  lemma LookKeepsUpToDate(t: Tier, latest: map<Key, Entry>, key: Key, now: u64, k: Key)
    requires UpToDate(t, latest, k)
    ensures UpToDate(TierAfterGet(t, key, now), latest, k)
    ensures key == k && TierGet(t, key, now).Some? ==>
      k in latest && SamePayload(TierGet(t, key, now).value, latest[k])
  {
  }

  lemma DiskKeepsUpToDate(s: System, key: Key, now: u64, k: Key)
    requires UpToDate(s.l3, s.latest, k) && (k in s.files ==> k in s.l3)
    ensures var t := AfterDisk(s, key, now);
      && UpToDate(t.l3, s.latest, k) && (k in t.files ==> k in t.l3)
      && (key == k && DiskGet(Tiers(s), key, now).Some? ==>
            k in s.latest && SamePayload(DiskGet(Tiers(s), key, now).value, s.latest[k]))
  {
  }

  lemma OtherKeyUpToDate(t: Tier, latest: map<Key, Entry>, key: Key, e: Entry, k: Key)
    requires key != k
    ensures UpToDate(t, latest, k) <==> UpToDate(t[key := e], latest, k)
    ensures UpToDate(t, latest, k) <==> UpToDate(t, latest[key := e], k)
  {
  }

  /** A section after which thread `t` stands at `th` leaves the tiers of `k` in order. */
  lemma SectionKeepsTiers(s: System, s': System, t: nat, th: Thread, k: Key)
    requires TiersOk(s, k) && s'.threads == s.threads[t := th]
    requires UpToDate(s'.l1, s'.latest, k)
    requires || UpToDate(s'.l2, s'.latest, k) || AwaitsL2(th, k)
             || (!AwaitsL2(ThreadOf(s, t), k) && (UpToDate(s.l2, s.latest, k) ==> UpToDate(s'.l2, s'.latest, k)))
    requires || DiskOk(s', k) || Inserting(th, k)
             || (!Inserting(ThreadOf(s, t), k) && (DiskOk(s, k) ==> DiskOk(s', k)))
    ensures TiersOk(s', k)
  {
    hide UpToDate, DiskOk;
    assert t in s'.threads && s'.threads[t] == th;
    if L2Awaited(s, k) && !AwaitsL2(ThreadOf(s, t), k) {
      var u :| u in s.threads && AwaitsL2(s.threads[u], k);
      assert u in s'.threads && AwaitsL2(s'.threads[u], k);
    }
    if BeingInserted(s, k) && !Inserting(ThreadOf(s, t), k) {
      var u :| u in s.threads && Inserting(s.threads[u], k);
      assert u in s'.threads && Inserting(s'.threads[u], k);
    }
  }

  lemma SectionKeepsCarriers(s: System, s': System, t: nat, th: Thread, k: Key)
    requires CarriersOk(s, k) && s'.threads == s.threads[t := th]
    requires k in s.latest ==> k in s'.latest && s'.latest[k] == s.latest[k]
    requires Carries(th, k) ==> k in s'.latest && SamePayload(th.e, s'.latest[k])
    ensures CarriersOk(s', k)
  {
    hide SamePayload;
  }

  lemma LookL1Keeps(s: System, t: nat, key: Key, now: u64, k: Key)
    requires KeyOk(s, k)
    ensures KeyOk(AfterLookL1(s, t, key, now), k)
  {
    if ThreadOf(s, t) == Idle {
      LookKeepsUpToDate(s.l1, s.latest, key, now, k);
      var s' := AfterLookL1(s, t, key, now);
      var th := if TierGet(s.l1, key, now).Some? then Idle else MissedL1(key);
      assert s'.l1 == TierAfterGet(s.l1, key, now) && s'.threads == s.threads[t := th];
      hide AfterLookL1, UpToDate, TierAfterGet, TierGet, TiersOk, CarriersOk;
      SectionKeepsTiers(s, s', t, th, k);
      SectionKeepsCarriers(s, s', t, th, k);
    }
  }

  lemma LookL2KeepsTiers(s: System, t: nat, now: u64, k: Key)
    requires TiersOk(s, k)
    ensures TiersOk(AfterLookL2(s, t, now), k)
  {
    if ThreadOf(s, t).MissedL1? {
      var key := ThreadOf(s, t).key;
      if UpToDate(s.l2, s.latest, k) {
        LookKeepsUpToDate(s.l2, s.latest, key, now, k);
      }
      var s', r := AfterLookL2(s, t, now), TierGet(s.l2, key, now);
      var th := if r.Some? then PromotingToL1(key, r.value) else MissedL2(key);
      hide UpToDate, TierAfterGet, TierGet;
      assert s'.l2 == TierAfterGet(s.l2, key, now) && s'.threads == s.threads[t := th] && s'.latest == s.latest;
      SectionKeepsTiers(s, s', t, th, k);
    }
  }

  lemma LookL2KeepsCarriers(s: System, t: nat, now: u64, k: Key)
    requires CarriersOk(s, k)
    ensures CarriersOk(AfterLookL2(s, t, now), k) <==> Harmless(s, LookL2(t, now), k)
  {
    if ThreadOf(s, t).MissedL1? {
      var key := ThreadOf(s, t).key;
      var s', r := AfterLookL2(s, t, now), TierGet(s.l2, key, now);
      var th := if r.Some? then PromotingToL1(key, r.value) else MissedL2(key);
      assert s'.threads == s.threads[t := th] && s'.latest == s.latest;
      hide AfterLookL2, TierGet, SamePayload;
      if Harmless(s, LookL2(t, now), k) {
        SectionKeepsCarriers(s, s', t, th, k);
      } else {
        assert Carries(s'.threads[t], k);
      }
    }
  }

  lemma LookL3KeepsTiers(s: System, t: nat, now: u64, k: Key)
    requires TiersOk(s, k)
    ensures TiersOk(AfterLookL3(s, t, now), k)
  {
    if ThreadOf(s, t).MissedL2? {
      var key := ThreadOf(s, t).key;
      if DiskOk(s, k) {
        DiskKeepsUpToDate(s, key, now, k);
      }
      var s' := AfterLookL3(s, t, now);
      assert s'.threads == s.threads[t := s'.threads[t]];
      assert s'.l3 == AfterDisk(s, key, now).l3 && s'.files == AfterDisk(s, key, now).files;
      hide AfterLookL3, UpToDate, AfterDisk, DiskGet;
      SectionKeepsTiers(s, s', t, s'.threads[t], k);
    }
  }

  lemma LookL3KeepsCarriers(s: System, t: nat, now: u64, k: Key)
    requires CarriersOk(s, k)
    ensures CarriersOk(AfterLookL3(s, t, now), k) <==> Harmless(s, LookL3(t, now), k)
  {
    if ThreadOf(s, t).MissedL2? {
      var key := ThreadOf(s, t).key;
      var s', r := AfterLookL3(s, t, now), DiskGet(Tiers(s), key, now);
      var th := if r.Some? then PromotingToL2(key, r.value) else Idle;
      assert s'.threads == s.threads[t := th] && s'.latest == s.latest;
      hide AfterLookL3, DiskGet, SamePayload;
      if Harmless(s, LookL3(t, now), k) {
        SectionKeepsCarriers(s, s', t, th, k);
      } else {
        assert Carries(s'.threads[t], k);
      }
    }
  }

  lemma PromoteKeeps(cfg: Config, s: System, t: nat, victim: Key, k: Key)
    requires KeyOk(s, k)
    ensures KeyOk(AfterPromote(cfg, s, t, victim), k)
  {
    var th := ThreadOf(s, t);
    if th.PromotingToL1? || th.PromotingToL2? {
      var s' := AfterPromote(cfg, s, t, victim);
      assert Carries(th, th.key);
      if th.PromotingToL1? {
        InsertKeepsUpToDate(s.l1, s.latest, cfg.l1Size, th.key, th.e, victim, k);
      } else if UpToDate(s.l2, s.latest, k) {
        InsertKeepsUpToDate(s.l2, s.latest, cfg.l2Size, th.key, th.e, victim, k);
      }
      hide UpToDate, TierInsert, TiersOk, CarriersOk;
      SectionKeepsTiers(s, s', t, Idle, k);
      SectionKeepsCarriers(s, s', t, Idle, k);
    }
  }

  lemma InsertL2Keeps(cfg: Config, s: System, t: nat, victim: Key, k: Key)
    requires KeyOk(s, k)
    ensures KeyOk(AfterInsertL2(cfg, s, t, victim), k)
  {
    var th := ThreadOf(s, t);
    if th.InsertedL1? {
      var s' := AfterInsertL2(cfg, s, t, victim);
      assert Carries(th, th.key);
      if th.key == k {
        InsertMakesUpToDate(s.l2, s.latest, cfg.l2Size, k, th.e, victim);
      } else if UpToDate(s.l2, s.latest, k) {
        InsertKeepsUpToDate(s.l2, s.latest, cfg.l2Size, th.key, th.e, victim, k);
      }
      hide UpToDate, TierInsert, TiersOk, CarriersOk;
      SectionKeepsTiers(s, s', t, InsertedL2(th.key, th.e), k);
      SectionKeepsCarriers(s, s', t, InsertedL2(th.key, th.e), k);
    }
  }

  lemma WriteDiskKeeps(s: System, t: nat, k: Key)
    requires KeyOk(s, k)
    ensures KeyOk(AfterWriteDisk(s, t), k)
  {
    var th := ThreadOf(s, t);
    if th.InsertedL2? {
      var s' := AfterWriteDisk(s, t);
      assert Carries(th, th.key);
      hide UpToDate, TiersOk, CarriersOk;
      SectionKeepsTiers(s, s', t, WroteFile(th.key, th.e), k);
      SectionKeepsCarriers(s, s', t, WroteFile(th.key, th.e), k);
    }
  }

  lemma RecordDiskKeeps(s: System, t: nat, k: Key)
    requires KeyOk(s, k)
    ensures KeyOk(AfterRecordDisk(s, t), k)
  {
    var th := ThreadOf(s, t);
    if th.WroteFile? {
      var s' := AfterRecordDisk(s, t);
      assert Carries(th, th.key);
      if th.key == k {
        assert DiskOk(s', k);
      } else {
        OtherKeyUpToDate(s.l3, s.latest, th.key, th.e, k);
      }
      assert th.key != k ==> (k in s'.l3 <==> k in s.l3);
      hide UpToDate, TiersOk, CarriersOk;
      SectionKeepsTiers(s, s', t, Idle, k);
      SectionKeepsCarriers(s, s', t, Idle, k);
    }
  }

  lemma BeginKeepsTiers(cfg: Config, s: System, t: nat, key: Key, e: Entry, victim: Key, k: Key)
    requires TiersOk(s, k)
    ensures TiersOk(AfterBegin(cfg, s, t, key, e, victim), k)
  {
    if ThreadOf(s, t) == Idle {
      var s' := AfterBegin(cfg, s, t, key, e, victim);
      if key == k {
        InsertMakesUpToDate(s.l1, s'.latest, cfg.l1Size, k, e, victim);
      } else {
        OtherKeyUpToDate(s.l1, s.latest, key, e, k);
        OtherKeyUpToDate(s.l2, s.latest, key, e, k);
        OtherKeyUpToDate(s.l3, s.latest, key, e, k);
        InsertKeepsUpToDate(s.l1, s'.latest, cfg.l1Size, key, e, victim, k);
      }
      hide UpToDate, TierInsert, TiersOk;
      SectionKeepsTiers(s, s', t, InsertedL1(key, e), k);
    }
  }

  lemma BeginKeepsCarriers(cfg: Config, s: System, t: nat, k: Key, e: Entry, victim: Key)
    requires ThreadOf(s, t) == Idle
    ensures CarriersOk(AfterBegin(cfg, s, t, k, e, victim), k) <==> AllCarry(s, k, e)
  {
    var s' := AfterBegin(cfg, s, t, k, e, victim);
    assert s'.threads == s.threads[t := InsertedL1(k, e)] && s'.latest[k] == e;
    assert forall u <- s.threads :: u != t ==> s'.threads[u] == s.threads[u];
    hide AfterBegin;
    if CarriersOk(s', k) {
      forall u | u in s.threads && Carries(s.threads[u], k) ensures SamePayload(s.threads[u].e, e) {
        assert u in s'.threads && s'.threads[u] == s.threads[u];
      }
    }
  }

  lemma BeginOtherKeepsCarriers(cfg: Config, s: System, t: nat, key: Key, e: Entry, victim: Key, k: Key)
    requires key != k && CarriersOk(s, k)
    ensures CarriersOk(AfterBegin(cfg, s, t, key, e, victim), k)
  {
    if ThreadOf(s, t) == Idle {
      hide SamePayload;
      SectionKeepsCarriers(s, AfterBegin(cfg, s, t, key, e, victim), t, InsertedL1(key, e), k);
    }
  }

  lemma StepKeeps(cfg: Config, s: System, a: Action, k: Key)
    requires KeyOk(s, k) && Harmless(s, a, k)
    ensures KeyOk(Step(cfg, s, a), k)
  {
    hide TiersOk, CarriersOk, AllCarry, AfterBegin, ReadToPromote;
    match a
    case BeginInsert(t, key, data, slot, ttl, now, victim) =>
      var e := NewEntry(data, slot, ttl, now);
      BeginKeepsTiers(cfg, s, t, key, e, victim, k);
      if ThreadOf(s, t) != Idle {
        BeginOfBusy(cfg, s, t, key, e, victim);
      } else if key == k {
        BeginKeepsCarriers(cfg, s, t, k, e, victim);
      } else {
        BeginOtherKeepsCarriers(cfg, s, t, key, e, victim, k);
      }
    case InsertL2(t, victim) => InsertL2Keeps(cfg, s, t, victim, k);
    case WriteDisk(t) => WriteDiskKeeps(s, t, k);
    case RecordDisk(t) => RecordDiskKeeps(s, t, k);
    case LookL1(t, key, now) => LookL1Keeps(s, t, key, now, k);
    case LookL2(t, now) => LookL2KeepsTiers(s, t, now, k); LookL2KeepsCarriers(s, t, now, k);
    case LookL3(t, now) => LookL3KeepsTiers(s, t, now, k); LookL3KeepsCarriers(s, t, now, k);
    case Promote(t, victim) => PromoteKeeps(cfg, s, t, victim, k);
  }

  lemma BeginOfBusy(cfg: Config, s: System, t: nat, key: Key, e: Entry, victim: Key)
    requires ThreadOf(s, t) != Idle
    ensures AfterBegin(cfg, s, t, key, e, victim) == s
  {
  }

  lemma {:induction false} RunKeeps(cfg: Config, s: System, run: seq<Action>, k: Key)
    requires KeyOk(s, k) && HarmlessRun(cfg, s, run, k)
    ensures KeyOk(RunFrom(cfg, s, run), k)
  {
    if run != [] {
      RunKeeps(cfg, s, run[..|run| - 1], k);
      StepKeeps(cfg, RunFrom(cfg, s, run[..|run| - 1]), run[|run| - 1], k);
      hide KeyOk, Harmless, Step;
    }
  }

  // ---------------------------------------------------------------- exactly the harmless steps are harmless

  /** Unless an insert of `k` is under way, every tier that has `k` has its latest payload. */
  predicate Settled(s: System, k: Key) {
    !BeingInserted(s, k) ==>
      UpToDate(s.l1, s.latest, k) && UpToDate(s.l2, s.latest, k) && UpToDate(s.l3, s.latest, k)
  }

  /** However the threads go on, as long as no further harm is done. */
  ghost predicate StaysSettled(cfg: Config, s: System, k: Key) {
    forall more :: HarmlessRun(cfg, s, more, k) ==> Settled(RunFrom(cfg, s, more), k)
  }

  lemma OkIsSettled(s: System, k: Key)
    requires KeyOk(s, k)
    ensures Settled(s, k)
  {
    hide UpToDate;
    if L2Awaited(s, k) {
      var t :| t in s.threads && AwaitsL2(s.threads[t], k);
      assert Inserting(s.threads[t], k);
    }
  }

  /** Steps that only finish what threads have begun. */
  predicate Finishing(a: Action) {
    a.InsertL2? || a.WriteDisk? || a.RecordDisk? || a.Promote?
  }

  lemma {:induction false} FinishingIsHarmless(cfg: Config, s: System, run: seq<Action>, k: Key)
    requires forall a <- run :: Finishing(a)
    ensures HarmlessRun(cfg, s, run, k)
  {
    if run != [] {
      assert run[|run| - 1] in run && forall a <- run[..|run| - 1] :: a in run;
      FinishingIsHarmless(cfg, s, run[..|run| - 1], k);
    }
  }

  /** What an insert under way still has to do. */
  function RestOfInsert(th: Thread, t: nat): seq<Action> {
    match th
    case InsertedL1(_, _) => [InsertL2(t, 0), WriteDisk(t), RecordDisk(t)]
    case InsertedL2(_, _) => [WriteDisk(t), RecordDisk(t)]
    case WroteFile(_, _) => [RecordDisk(t)]
    case _ => []
  }

  /** The rest of the insert leaves thread `t` idle, the others and `latest` alone, and its entry on disk. */
  ghost predicate Finished(s: System, s': System, t: nat, k: Key, e: Entry) {
    && s'.latest == s.latest && s'.threads == s.threads[t := Idle]
    && k in s'.l3 && s'.l3[k] == e
  }

  lemma FinishL3(cfg: Config, s: System, t: nat, k: Key, e: Entry)
    requires ThreadOf(s, t) == WroteFile(k, e)
    ensures Finished(s, RunFrom(cfg, s, [RecordDisk(t)]), t, k, e)
  {
    RunFromSnoc(cfg, s, [], RecordDisk(t));
    assert [] + [RecordDisk(t)] == [RecordDisk(t)];
  }

  lemma FinishFile(cfg: Config, s: System, t: nat, k: Key, e: Entry)
    requires ThreadOf(s, t) == InsertedL2(k, e)
    ensures Finished(s, RunFrom(cfg, s, [WriteDisk(t), RecordDisk(t)]), t, k, e)
  {
    RunFromSnoc(cfg, s, [], WriteDisk(t));
    assert [] + [WriteDisk(t)] == [WriteDisk(t)];
    RunFromAppend(cfg, s, [WriteDisk(t)], [RecordDisk(t)]);
    assert [WriteDisk(t)] + [RecordDisk(t)] == [WriteDisk(t), RecordDisk(t)];
    hide RunFrom;
    var s1 := Step(cfg, s, WriteDisk(t));
    assert s1.threads == s.threads[t := WroteFile(k, e)] && s1.latest == s.latest;
    FinishL3(cfg, s1, t, k, e);
    assert s.threads[t := WroteFile(k, e)][t := Idle] == s.threads[t := Idle];
  }

  lemma FinishL2(cfg: Config, s: System, t: nat, k: Key, e: Entry)
    requires ThreadOf(s, t) == InsertedL1(k, e)
    ensures Finished(s, RunFrom(cfg, s, [InsertL2(t, 0), WriteDisk(t), RecordDisk(t)]), t, k, e)
  {
    RunFromSnoc(cfg, s, [], InsertL2(t, 0));
    assert [] + [InsertL2(t, 0)] == [InsertL2(t, 0)];
    RunFromAppend(cfg, s, [InsertL2(t, 0)], [WriteDisk(t), RecordDisk(t)]);
    assert [InsertL2(t, 0)] + [WriteDisk(t), RecordDisk(t)] == [InsertL2(t, 0), WriteDisk(t), RecordDisk(t)];
    hide RunFrom;
    var s1 := Step(cfg, s, InsertL2(t, 0));
    assert s1.threads == s.threads[t := InsertedL2(k, e)] && s1.latest == s.latest;
    FinishFile(cfg, s1, t, k, e);
    assert s.threads[t := InsertedL2(k, e)][t := Idle] == s.threads[t := Idle];
  }

  lemma FinishesInsert(cfg: Config, s: System, t: nat, k: Key)
    requires Inserting(ThreadOf(s, t), k)
    ensures forall a <- RestOfInsert(ThreadOf(s, t), t) :: Finishing(a)
    ensures Finished(s, RunFrom(cfg, s, RestOfInsert(ThreadOf(s, t), t)), t, k, ThreadOf(s, t).e)
  {
    hide RunFrom, Finished;
    match ThreadOf(s, t)
    case InsertedL1(_, e) => FinishL2(cfg, s, t, k, e);
    case InsertedL2(_, e) => FinishFile(cfg, s, t, k, e);
    case WroteFile(_, e) => FinishL3(cfg, s, t, k, e);
    case _ =>
  }

  function OtherInserts(s: System, k: Key, u: nat): set<nat> {
    set t | t in s.threads && Inserting(s.threads[t], k) && t != u
  }

  /** All inserts of `k` but that of thread `u` can be brought to their end. */
  lemma {:induction false} FinishOthers(cfg: Config, s: System, k: Key, u: nat) returns (run: seq<Action>)
    ensures forall a <- run :: Finishing(a)
    ensures var s' := RunFrom(cfg, s, run);
      OtherInserts(s', k, u) == {} && ThreadOf(s', u) == ThreadOf(s, u) && s'.latest == s.latest
    decreases |OtherInserts(s, k, u)|
  {
    if OtherInserts(s, k, u) == {} {
      run := [];
    } else {
      var t :| t in OtherInserts(s, k, u);
      var first := RestOfInsert(ThreadOf(s, t), t);
      FinishesInsert(cfg, s, t, k);
      var s1 := RunFrom(cfg, s, first);
      assert OtherInserts(s1, k, u) == OtherInserts(s, k, u) - {t};
      var rest := FinishOthers(cfg, s1, k, u);
      RunFromAppend(cfg, s, first, rest);
      run := first + rest;
      hide RunFrom;
      assert forall a <- run :: a in first || a in rest;
    }
  }

  lemma InsertStores(t: Tier, maxSize: nat, k: Key, e: Entry, victim: Key)
    ensures var u := TierInsert(t, maxSize, k, e, victim); k in u && u[k] == e
  {
  }

  lemma PromotionStores(cfg: Config, s: System, u: nat, k: Key)
    requires Promoting(ThreadOf(s, u), k)
    ensures var s', e := AfterPromote(cfg, s, u, 0), ThreadOf(s, u).e;
      && s'.threads == s.threads[u := Idle] && s'.latest == s.latest
      && ((k in s'.l1 && s'.l1[k] == e) || (k in s'.l2 && s'.l2[k] == e))
  {
    hide TierInsert;
    var th := ThreadOf(s, u);
    if th.PromotingToL1? {
      InsertStores(s.l1, cfg.l1Size, k, th.e, 0);
    } else {
      InsertStores(s.l2, cfg.l2Size, k, th.e, 0);
    }
  }

  lemma PromotionSpoils(cfg: Config, s: System, u: nat, k: Key)
    requires Promoting(ThreadOf(s, u), k) && OtherInserts(s, k, u) == {}
    requires !(k in s.latest && SamePayload(ThreadOf(s, u).e, s.latest[k]))
    ensures !Settled(RunFrom(cfg, s, [Promote(u, 0)]), k)
  {
    RunFromSnoc(cfg, s, [], Promote(u, 0));
    assert [] + [Promote(u, 0)] == [Promote(u, 0)];
    PromotionStores(cfg, s, u, k);
    var s' := AfterPromote(cfg, s, u, 0);
    assert RunFrom(cfg, s, [Promote(u, 0)]) == s';
    hide RunFrom, Step, AfterPromote, SamePayload;
    forall t | t in s'.threads ensures !Inserting(s'.threads[t], k) {
      assert t != u ==> t !in OtherInserts(s, k, u);
    }
  }

  lemma InsertSpoils(cfg: Config, s: System, u: nat, k: Key)
    requires Inserting(ThreadOf(s, u), k) && OtherInserts(s, k, u) == {}
    requires !(k in s.latest && SamePayload(ThreadOf(s, u).e, s.latest[k]))
    ensures !Settled(RunFrom(cfg, s, RestOfInsert(ThreadOf(s, u), u)), k)
  {
    FinishesInsert(cfg, s, u, k);
    var s' := RunFrom(cfg, s, RestOfInsert(ThreadOf(s, u), u));
    hide RunFrom;
    forall t | t in s'.threads ensures !Inserting(s'.threads[t], k) {
      assert t != u ==> t !in OtherInserts(s, k, u);
    }
  }

  /** A thread with another payload in hand can always be the last to store. */
  lemma StaleCarrierSpoils(cfg: Config, s: System, u: nat, k: Key)
    requires u in s.threads && Carries(s.threads[u], k)
    requires !(k in s.latest && SamePayload(s.threads[u].e, s.latest[k]))
    ensures !StaysSettled(cfg, s, k)
  {
    var first := FinishOthers(cfg, s, k, u);
    var s1, th := RunFrom(cfg, s, first), s.threads[u];
    var last: seq<Action>;
    if Promoting(th, k) {
      last := [Promote(u, 0)];
      PromotionSpoils(cfg, s1, u, k);
    } else {
      last := RestOfInsert(th, u);
      FinishesInsert(cfg, s1, u, k);
      InsertSpoils(cfg, s1, u, k);
    }
    hide RunFrom, Settled, HarmlessRun;
    RunFromAppend(cfg, s, first, last);
    var more := first + last;
    assert forall a <- more :: a in first || a in last;
    FinishingIsHarmless(cfg, s, more, k);
    assert HarmlessRun(cfg, s, more, k) && !Settled(RunFrom(cfg, s, more), k);
  }

  /** With the tiers in order, they stay so however the threads go on exactly when every entry of `k` in hand
      has the latest payload. */
  lemma CarriersDecide(cfg: Config, s: System, k: Key)
    requires TiersOk(s, k)
    ensures StaysSettled(cfg, s, k) <==> CarriersOk(s, k)
  {
    if CarriersOk(s, k) {
      forall more | HarmlessRun(cfg, s, more, k) ensures Settled(RunFrom(cfg, s, more), k) {
        RunKeeps(cfg, s, more, k);
        OkIsSettled(RunFrom(cfg, s, more), k);
      }
    } else {
      var u :| u in s.threads && Carries(s.threads[u], k) && !(k in s.latest && SamePayload(s.threads[u].e, s.latest[k]));
      StaleCarrierSpoils(cfg, s, u, k);
    }
  }

  /** So a step from a good state keeps every continuation up to date exactly when it is harmless: an insert
      that begins among equal payloads, a read that finds the latest. */
  lemma HarmlessExactly(cfg: Config, s: System, a: Action, k: Key)
    requires KeyOk(s, k)
    ensures StaysSettled(cfg, Step(cfg, s, a), k) <==> Harmless(s, a, k)
  {
    hide TiersOk, CarriersOk, StaysSettled;
    if Harmless(s, a, k) {
      StepKeeps(cfg, s, a, k);
      CarriersDecide(cfg, Step(cfg, s, a), k);
    } else if a.BeginInsert? {
      var e := NewEntry(a.data, a.slot, a.ttl, a.now);
      BeginKeepsTiers(cfg, s, a.t, k, e, a.victim, k);
      BeginKeepsCarriers(cfg, s, a.t, k, e, a.victim);
      CarriersDecide(cfg, Step(cfg, s, a), k);
    } else if a.LookL2? {
      LookL2KeepsTiers(s, a.t, a.now, k);
      LookL2KeepsCarriers(s, a.t, a.now, k);
      CarriersDecide(cfg, Step(cfg, s, a), k);
    } else {
      LookL3KeepsTiers(s, a.t, a.now, k);
      LookL3KeepsCarriers(s, a.t, a.now, k);
      CarriersDecide(cfg, Step(cfg, s, a), k);
    }
  }

  // ---------------------------------------------------------------- what gets answer

  /** The section gives thread `a.t` this result for key `k`. */
  predicate Returns(s: System, a: Action, k: Key, r: Option<Entry>) {
    || (a.LookL1? && ThreadOf(s, a.t) == Idle && a.key == k && r == TierGet(s.l1, k, a.now))
    || (a.LookL2? && ThreadOf(s, a.t) == MissedL1(k) && r == TierGet(s.l2, k, a.now))
    || (a.LookL3? && ThreadOf(s, a.t) == MissedL2(k) && r == DiskGet(Tiers(s), k, a.now))
  }

  lemma FirstLookAnswers(s: System, t: nat, key: Key, now: u64)
    ensures AfterLookL1(s, t, key, now).answers ==
      if ThreadOf(s, t) == Idle && TierGet(s.l1, key, now).Some? then s.answers[t := TierGet(s.l1, key, now)] else s.answers
  {
    hide TierGet, TierAfterGet, ThreadOf;
    var r, s1 := TierGet(s.l1, key, now), s.(l1 := TierAfterGet(s.l1, key, now));
    assert s1.answers == s.answers;
    if ThreadOf(s, t) == Idle {
      assert AfterLookL1(s, t, key, now) == if r.Some? then Answer(s1, t, r, Idle) else To(s1, t, MissedL1(key));
    }
  }

  lemma SecondLookAnswers(s: System, t: nat, now: u64)
    ensures AfterLookL2(s, t, now).answers ==
      match ThreadOf(s, t)
      case MissedL1(k) => if TierGet(s.l2, k, now).Some? then s.answers[t := TierGet(s.l2, k, now)] else s.answers
      case _ => s.answers
  {
    hide TierGet, TierAfterGet;
  }

  lemma DiskLookAnswers(s: System, t: nat, now: u64)
    ensures AfterLookL3(s, t, now).answers ==
      match ThreadOf(s, t)
      case MissedL2(k) => s.answers[t := DiskGet(Tiers(s), k, now)]
      case _ => s.answers
  {
    hide DiskGet, AfterDiskGet;
  }

  lemma InsertsAnswerNothing(cfg: Config, s: System, t: nat, key: Key, e: Entry, victim: Key)
    ensures AfterBegin(cfg, s, t, key, e, victim).answers == s.answers
    ensures AfterInsertL2(cfg, s, t, victim).answers == s.answers
  {
    hide TierInsert;
  }

  lemma RestAnswersNothing(cfg: Config, s: System, t: nat, victim: Key)
    ensures AfterWriteDisk(s, t).answers == AfterRecordDisk(s, t).answers == s.answers
    ensures AfterPromote(cfg, s, t, victim).answers == s.answers
  {
    hide TierInsert;
  }

  lemma OthersAnswerNothing(cfg: Config, s: System, a: Action)
    requires !a.LookL1? && !a.LookL2? && !a.LookL3?
    ensures Step(cfg, s, a).answers == s.answers
  {
    hide AfterBegin, AfterInsertL2, AfterWriteDisk, AfterRecordDisk, AfterPromote;
    match a
    case BeginInsert(t, key, data, slot, ttl, now, victim) =>
      InsertsAnswerNothing(cfg, s, t, key, NewEntry(data, slot, ttl, now), victim);
    case InsertL2(t, victim) => InsertsAnswerNothing(cfg, s, t, 0, NewEntry([], 0, 0, 0), victim);
    case WriteDisk(t) => RestAnswersNothing(cfg, s, t, 0);
    case RecordDisk(t) => RestAnswersNothing(cfg, s, t, 0);
    case Promote(t, victim) => RestAnswersNothing(cfg, s, t, victim);
  }

  /** That is what a thread that finds something is answered, and nothing else is answered but a miss. */
  lemma ReturnsIsAnswer(cfg: Config, s: System, a: Action)
    ensures var answers := Step(cfg, s, a).answers;
      && (forall k, r :: Returns(s, a, k, r) && r.Some? ==> answers == s.answers[a.t := r])
      && (answers == s.answers || exists k, r :: Returns(s, a, k, r) && answers == s.answers[a.t := r])
  {
    hide TierGet, DiskGet, AfterLookL1, AfterLookL2, AfterLookL3;
    match a
    case LookL1(t, key, now) =>
      FirstLookAnswers(s, t, key, now);
      assert ThreadOf(s, t) == Idle ==> Returns(s, a, key, TierGet(s.l1, key, now));
    case LookL2(t, now) =>
      SecondLookAnswers(s, t, now);
      if ThreadOf(s, t).MissedL1? {
        assert Returns(s, a, ThreadOf(s, t).key, TierGet(s.l2, ThreadOf(s, t).key, now));
      }
    case LookL3(t, now) =>
      DiskLookAnswers(s, t, now);
      if ThreadOf(s, t).MissedL2? {
        assert Returns(s, a, ThreadOf(s, t).key, DiskGet(Tiers(s), ThreadOf(s, t).key, now));
      }
    case _ => OthersAnswerNothing(cfg, s, a);
  }

  /** No insert of `k` under way has yet to write the tier that the section reads. */
  predicate Written(s: System, a: Action, k: Key) {
    (a.LookL2? ==> !L2Awaited(s, k)) && (a.LookL3? ==> !BeingInserted(s, k))
  }

  /** After any harmless run a get that finds its key, in a tier that no insert of it has yet to write, returns
      the payload of the latest insert to have begun; and when no insert of the key is under way every tier
      that has the key has that payload. */
  lemma GetsAnswerLatest(cfg: Config, run: seq<Action>, a: Action, k: Key, r: Option<Entry>)
    requires HarmlessRun(cfg, START, run, k)
    ensures var s := Run(cfg, run);
      && (Returns(s, a, k, r) && r.Some? && Written(s, a, k) ==> k in s.latest && SamePayload(r.value, s.latest[k]))
      && Settled(s, k)
  {
    RunKeeps(cfg, START, run, k);
    var s := Run(cfg, run);
    OkIsSettled(s, k);
    hide Run, BeingInserted, L2Awaited, Settled;
    if Returns(s, a, k, r) && r.Some? && Written(s, a, k) {
      if a.LookL1? {
        LookKeepsUpToDate(s.l1, s.latest, k, a.now, k);
      } else if a.LookL2? {
        LookKeepsUpToDate(s.l2, s.latest, k, a.now, k);
      } else {
        DiskKeepsUpToDate(s, k, a.now, k);
      }
    }
  }

  /** No insert of a key overlaps another insert of it, nor the time between a get's read of it and its promotion. */
  predicate Apart(s: System, a: Action, k: Key) {
    && (a.BeginInsert? && ThreadOf(s, a.t) == Idle && a.key == k ==> forall t <- s.threads :: !Carries(s.threads[t], k))
    && (ReadToPromote(s, a, k).Some? ==> !BeingInserted(s, k))
  }

  predicate ApartRun(cfg: Config, run: seq<Action>, k: Key) {
    run != [] ==> ApartRun(cfg, run[..|run| - 1], k) && Apart(Run(cfg, run[..|run| - 1]), run[|run| - 1], k)
  }

  lemma ApartIsHarmlessStep(s: System, a: Action, k: Key)
    requires KeyOk(s, k) && Apart(s, a, k)
    ensures Harmless(s, a, k)
  {
    OkIsSettled(s, k);
    if ReadToPromote(s, a, k).Some? {
      hide BeingInserted;
      if a.LookL2? {
        LookKeepsUpToDate(s.l2, s.latest, k, a.now, k);
      } else {
        DiskKeepsUpToDate(s, k, a.now, k);
      }
    }
  }

  /** In particular calls that do not overlap on the key do no harm. */
  lemma {:induction false} ApartIsHarmless(cfg: Config, run: seq<Action>, k: Key)
    requires ApartRun(cfg, run, k)
    ensures HarmlessRun(cfg, START, run, k)
  {
    if run != [] {
      ApartIsHarmless(cfg, run[..|run| - 1], k);
      RunKeeps(cfg, START, run[..|run| - 1], k);
      ApartIsHarmlessStep(Run(cfg, run[..|run| - 1]), run[|run| - 1], k);
      hide Apart, Harmless, KeyOk;
    }
  }

  lemma AwaitedIsBeingInserted(s: System, k: Key)
    ensures L2Awaited(s, k) ==> BeingInserted(s, k)
  {
    if t :| t in s.threads && AwaitsL2(s.threads[t], k) {
      assert Inserting(s.threads[t], k);
    }
  }

  lemma ApartIsWritten(s: System, a: Action, k: Key, r: Option<Entry>)
    requires Apart(s, a, k) && Returns(s, a, k, r) && r.Some?
    ensures Written(s, a, k)
  {
    AwaitedIsBeingInserted(s, k);
    hide TierGet, DiskGet, L2Awaited, BeingInserted;
  }

  /** After any run of such calls every get that finds its key returns the payload of the latest insert of it to
      have begun. */
  lemma ApartGetsAnswerLatest(cfg: Config, run: seq<Action>, a: Action, k: Key, r: Option<Entry>)
    requires ApartRun(cfg, run, k) && Apart(Run(cfg, run), a, k)
    requires Returns(Run(cfg, run), a, k, r) && r.Some?
    ensures k in Run(cfg, run).latest && SamePayload(r.value, Run(cfg, run).latest[k])
  {
    hide *;
    ApartIsHarmless(cfg, run, k);
    ApartIsWritten(Run(cfg, run), a, k, r);
    GetsAnswerLatest(cfg, run, a, k, r);
  }

  // ---------------------------------------------------------------- unexpired keys are found

  predicate ReadsClock(a: Action) {
    a.BeginInsert? || a.LookL1? || a.LookL2? || a.LookL3?
  }

  function LastReading(run: seq<Action>): u64 {
    if run == [] then 0
    else if ReadsClock(run[|run| - 1]) then run[|run| - 1].now
    else LastReading(run[..|run| - 1])
  }

  predicate ClockMonotone(run: seq<Action>) {
    run != [] ==>
      ClockMonotone(run[..|run| - 1]) &&
      (ReadsClock(run[|run| - 1]) ==> LastReading(run[..|run| - 1]) <= run[|run| - 1].now)
  }

  /** The disk tier has the key unless its latest insert has expired or is not finished. */
  predicate OnDisk(s: System, k: Key, now: u64) {
    k in s.latest && !Expired(s.latest[k], now) && !BeingInserted(s, k) ==> k in s.l3
  }

  lemma OnDiskLater(s: System, k: Key, now: u64, later: u64)
    requires OnDisk(s, k, now) && now <= later
    ensures OnDisk(s, k, later)
  {
    hide BeingInserted;
  }

  lemma SameInserting(s: System, s': System, t: nat, th: Thread, k: Key)
    requires s'.threads == s.threads[t := th] && (Inserting(ThreadOf(s, t), k) ==> Inserting(th, k))
    ensures BeingInserted(s, k) ==> BeingInserted(s', k)
  {
    if BeingInserted(s, k) {
      var u :| u in s.threads && Inserting(s.threads[u], k);
      assert u in s'.threads && Inserting(s'.threads[u], k);
    }
  }

  lemma LookL3KeepsOnDisk(s: System, t: nat, now: u64, k: Key)
    requires KeyOk(s, k) && OnDisk(s, k, now)
    ensures OnDisk(AfterLookL3(s, t, now), k, now)
  {
    if ThreadOf(s, t).MissedL2? {
      var key := ThreadOf(s, t).key;
      var s' := AfterLookL3(s, t, now);
      SameInserting(s, s', t, s'.threads[t], k);
      assert s'.l3 == AfterDisk(s, key, now).l3 && s'.latest == s.latest;
      if !BeingInserted(s, k) && k in s.l3 {
        SameExpiry(s.l3[k], s.latest[k], now);
      }
      hide BeingInserted, AfterLookL3, Deadline;
    }
  }

  lemma RecordKeepsOnDisk(s: System, t: nat, k: Key, now: u64)
    requires OnDisk(s, k, now)
    ensures OnDisk(AfterRecordDisk(s, t), k, now)
  {
    var th := ThreadOf(s, t);
    if th.WroteFile? && th.key != k {
      SameInserting(s, AfterRecordDisk(s, t), t, Idle, k);
    }
    hide BeingInserted, Expired;
  }

  lemma BeginKeepsOnDisk(cfg: Config, s: System, t: nat, key: Key, e: Entry, victim: Key, k: Key, now: u64)
    requires OnDisk(s, k, now)
    ensures OnDisk(AfterBegin(cfg, s, t, key, e, victim), k, now)
  {
    if ThreadOf(s, t) == Idle {
      var s' := AfterBegin(cfg, s, t, key, e, victim);
      SameInserting(s, s', t, InsertedL1(key, e), k);
      if key == k {
        assert Inserting(s'.threads[t], k);
      }
      hide Expired, TierInsert;
    }
  }

  /** A section that leaves the disk tier and `latest` alone and takes no thread out of an insert. */
  lemma SectionKeepsOnDisk(s: System, s': System, t: nat, th: Thread, k: Key, now: u64)
    requires OnDisk(s, k, now) && s'.l3 == s.l3 && s'.latest == s.latest
    requires s'.threads == s.threads[t := th] && (Inserting(ThreadOf(s, t), k) ==> Inserting(th, k))
    ensures OnDisk(s', k, now)
  {
    SameInserting(s, s', t, th, k);
    hide BeingInserted, Expired;
  }

  lemma InsertKeepsOnDisk(cfg: Config, s: System, t: nat, victim: Key, k: Key, now: u64)
    requires OnDisk(s, k, now)
    ensures OnDisk(AfterInsertL2(cfg, s, t, victim), k, now) && OnDisk(AfterWriteDisk(s, t), k, now)
  {
    hide OnDisk, TierInsert;
    var th := ThreadOf(s, t);
    if th.InsertedL1? {
      SectionKeepsOnDisk(s, AfterInsertL2(cfg, s, t, victim), t, InsertedL2(th.key, th.e), k, now);
    } else if th.InsertedL2? {
      SectionKeepsOnDisk(s, AfterWriteDisk(s, t), t, WroteFile(th.key, th.e), k, now);
    }
  }

  lemma LookL1KeepsOnDisk(s: System, t: nat, key: Key, time: u64, k: Key, now: u64)
    requires OnDisk(s, k, now)
    ensures OnDisk(AfterLookL1(s, t, key, time), k, now)
  {
    hide OnDisk, TierGet, TierAfterGet;
    if ThreadOf(s, t).Idle? {
      var th := if TierGet(s.l1, key, time).Some? then Idle else MissedL1(key);
      SectionKeepsOnDisk(s, AfterLookL1(s, t, key, time), t, th, k, now);
    }
  }

  lemma LookL2KeepsOnDisk(s: System, t: nat, time: u64, k: Key, now: u64)
    requires OnDisk(s, k, now)
    ensures OnDisk(AfterLookL2(s, t, time), k, now)
  {
    hide OnDisk, TierGet, TierAfterGet;
    if ThreadOf(s, t).MissedL1? {
      var key := ThreadOf(s, t).key;
      var r := TierGet(s.l2, key, time);
      var th := if r.Some? then PromotingToL1(key, r.value) else MissedL2(key);
      SectionKeepsOnDisk(s, AfterLookL2(s, t, time), t, th, k, now);
    }
  }

  lemma PromoteKeepsOnDisk(cfg: Config, s: System, t: nat, victim: Key, k: Key, now: u64)
    requires OnDisk(s, k, now)
    ensures OnDisk(AfterPromote(cfg, s, t, victim), k, now)
  {
    hide OnDisk, TierInsert;
    if ThreadOf(s, t).PromotingToL1? || ThreadOf(s, t).PromotingToL2? {
      SectionKeepsOnDisk(s, AfterPromote(cfg, s, t, victim), t, Idle, k, now);
    }
  }

  lemma {:induction false} RunKeepsOnDisk(cfg: Config, run: seq<Action>, k: Key)
    requires HarmlessRun(cfg, START, run, k) && ClockMonotone(run)
    ensures OnDisk(Run(cfg, run), k, LastReading(run))
  {
    if run != [] {
      var front, a := run[..|run| - 1], run[|run| - 1];
      RunKeepsOnDisk(cfg, front, k);
      RunKeeps(cfg, START, front, k);
      var s := Run(cfg, front);
      OnDiskLater(s, k, LastReading(front), LastReading(run));
      hide OnDisk, KeyOk, HarmlessRun, AfterBegin, AfterInsertL2, AfterWriteDisk, AfterRecordDisk,
        AfterLookL1, AfterLookL2, AfterLookL3, AfterPromote;
      match a
      case BeginInsert(t, key, data, slot, ttl, now, victim) =>
        BeginKeepsOnDisk(cfg, s, t, key, NewEntry(data, slot, ttl, now), victim, k, now);
      case RecordDisk(t) => RecordKeepsOnDisk(s, t, k, LastReading(run));
      case LookL3(t, now) => LookL3KeepsOnDisk(s, t, now, k);
      case LookL1(t, key, now) => LookL1KeepsOnDisk(s, t, key, now, k, now);
      case LookL2(t, now) => LookL2KeepsOnDisk(s, t, now, k, now);
      case Promote(t, victim) => PromoteKeepsOnDisk(cfg, s, t, victim, k, LastReading(run));
      case InsertL2(t, victim) => InsertKeepsOnDisk(cfg, s, t, victim, k, LastReading(run));
      case WriteDisk(t) => InsertKeepsOnDisk(cfg, s, t, 0, k, LastReading(run));
    }
  }

  /** After any harmless run with a nondecreasing clock, a get that comes to the disk tier while no insert of the
      key is under way and the latest one has not expired finds it, with the latest payload. */
  lemma UnexpiredIsFound(cfg: Config, run: seq<Action>, t: nat, now: u64, k: Key)
    requires HarmlessRun(cfg, START, run, k) && ClockMonotone(run) && LastReading(run) <= now
    requires var s := Run(cfg, run);
      ThreadOf(s, t) == MissedL2(k) && !BeingInserted(s, k) && k in s.latest && !Expired(s.latest[k], now)
    ensures var s := Run(cfg, run); var r := DiskGet(Tiers(s), k, now);
      r.Some? && SamePayload(r.value, s.latest[k])
  {
    RunKeepsOnDisk(cfg, run, k);
    RunKeeps(cfg, START, run, k);
    var s := Run(cfg, run);
    OnDiskLater(s, k, LastReading(run), now);
    OkIsSettled(s, k);
    hide Run, BeingInserted;
    SameExpiry(s.l3[k], s.latest[k], now);
  }

  // ---------------------------------------------------------------- a promotion that overtakes an insert

  /** One whole insert by thread `t`. */
  function InsertRun(t: nat, k: Key, data: seq<byte>): seq<Action> {
    [BeginInsert(t, k, data, 0, 1, 0, k), InsertL2(t, k), WriteDisk(t), RecordDisk(t)]
  }

  /** Thread 0 misses L1 before the first insert, reads its entry from L2, and promotes it after the second. */
  function StalePromotion(k: Key, d1: seq<byte>, d2: seq<byte>): seq<Action> {
    [LookL1(0, k, 0)] + InsertRun(1, k, d1) + [LookL2(0, 0)] + InsertRun(1, k, d2) + [Promote(0, k)]
  }

  lemma RunSnoc(cfg: Config, run: seq<Action>, a: Action)
    ensures Run(cfg, run + [a]) == Step(cfg, Run(cfg, run), a)
  {
    RunFromSnoc(cfg, START, run, a);
  }

  lemma RunFour(cfg: Config, run: seq<Action>, a: Action, b: Action, c: Action, d: Action)
    ensures Run(cfg, run + [a, b, c, d]) == Step(cfg, Step(cfg, Step(cfg, Step(cfg, Run(cfg, run), a), b), c), d)
  {
    hide Step;
    RunSnoc(cfg, run, a);
    RunSnoc(cfg, run + [a], b);
    RunSnoc(cfg, run + [a] + [b], c);
    RunSnoc(cfg, run + [a] + [b] + [c], d);
    assert run + [a, b, c, d] == run + [a] + [b] + [c] + [d];
  }

  lemma BeginStores(cfg: Config, s: System, k: Key, e: Entry, victim: Key)
    requires ThreadOf(s, 1) == Idle
    ensures var t := AfterBegin(cfg, s, 1, k, e, victim);
      && ThreadOf(t, 1) == InsertedL1(k, e) && ThreadOf(t, 0) == ThreadOf(s, 0)
      && k in t.l1 && t.l1[k] == e && k in t.latest && t.latest[k] == e
  {
  }

  lemma RestStores(cfg: Config, s: System, k: Key, e: Entry, victim: Key)
    requires ThreadOf(s, 1) == InsertedL1(k, e)
    ensures var t := AfterRecordDisk(AfterWriteDisk(AfterInsertL2(cfg, s, 1, victim), 1), 1);
      && ThreadOf(t, 1) == Idle && ThreadOf(t, 0) == ThreadOf(s, 0)
      && t.l1 == s.l1 && t.latest == s.latest && k in t.l2 && t.l2[k] == e
  {
    var s2 := AfterInsertL2(cfg, s, 1, victim);
    assert ThreadOf(s2, 1) == InsertedL2(k, e) && ThreadOf(s2, 0) == ThreadOf(s, 0) && k in s2.l2 && s2.l2[k] == e;
    hide TierInsert;
    var s3 := AfterWriteDisk(s2, 1);
    assert ThreadOf(s3, 1) == WroteFile(k, e) && ThreadOf(s3, 0) == ThreadOf(s, 0) && s3.l2 == s2.l2;
  }

  /** What a whole insert leaves: the entry in every tier, and the other thread where it was. */
  lemma InsertRunStores(cfg: Config, run: seq<Action>, k: Key, data: seq<byte>)
    requires ThreadOf(Run(cfg, run), 1) == Idle
    ensures var s, t := Run(cfg, run), Run(cfg, run + InsertRun(1, k, data));
      var e := NewEntry(data, 0, 1, 0);
      && k in t.l1 && t.l1[k] == e && k in t.l2 && t.l2[k] == e && k in t.latest && t.latest[k] == e
      && ThreadOf(t, 0) == ThreadOf(s, 0) && ThreadOf(t, 1) == Idle
  {
    RunFour(cfg, run, BeginInsert(1, k, data, 0, 1, 0, k), InsertL2(1, k), WriteDisk(1), RecordDisk(1));
    hide Run, ThreadOf, AfterBegin, AfterInsertL2, AfterWriteDisk, AfterRecordDisk;
    var e := NewEntry(data, 0, 1, 0);
    BeginStores(cfg, Run(cfg, run), k, e, k);
    RestStores(cfg, AfterBegin(cfg, Run(cfg, run), 1, k, e, k), k, e, k);
  }

  lemma OldEntryIsRead(cfg: Config, s: System, k: Key, e: Entry)
    requires ThreadOf(s, 0) == MissedL1(k) && k in s.l2 && s.l2[k] == e && !Expired(e, 0)
    ensures var t := Step(cfg, s, LookL2(0, 0));
      ThreadOf(t, 0) == PromotingToL1(k, Accessed(e, 0)) && ThreadOf(t, 1) == ThreadOf(s, 1)
  {
  }

  lemma OldEntryIsPromoted(cfg: Config, s: System, k: Key, e: Entry)
    requires ThreadOf(s, 0) == PromotingToL1(k, e)
    ensures var t := Step(cfg, s, Promote(0, k));
      && ThreadOf(t, 0).Idle? && ThreadOf(t, 1) == ThreadOf(s, 1) && t.latest == s.latest
      && k in t.l1 && t.l1[k] == e
  {
  }

  lemma FirstLookMisses(cfg: Config, k: Key)
    ensures var s := Run(cfg, [LookL1(0, k, 0)]); ThreadOf(s, 0) == MissedL1(k) && ThreadOf(s, 1).Idle?
  {
    RunSnoc(cfg, [], LookL1(0, k, 0));
    assert [] + [LookL1(0, k, 0)] == [LookL1(0, k, 0)];
  }

  /** Under every configuration a get can put back an older entry: both inserts are complete, both threads
      idle, the second insert's entry has not expired, and the next get answers with the first. */
  lemma PromotionRestoresOldEntry(cfg: Config, k: Key, d1: seq<byte>, d2: seq<byte>)
    ensures var s := Run(cfg, StalePromotion(k, d1, d2));
      && ThreadOf(s, 0).Idle? && ThreadOf(s, 1).Idle?
      && k in s.latest && s.latest[k].data == d2 && !Expired(s.latest[k], 0)
      && TierGet(s.l1, k, 0).Some? && TierGet(s.l1, k, 0).value.data == d1
  {
    hide Run, Step, InsertRun, ThreadOf;
    FirstLookMisses(cfg, k);
    var r0 := [LookL1(0, k, 0)];
    InsertRunStores(cfg, r0, k, d1);
    var r1 := r0 + InsertRun(1, k, d1);
    var e1 := NewEntry(d1, 0, 1, 0);
    OldEntryIsRead(cfg, Run(cfg, r1), k, e1);
    RunSnoc(cfg, r1, LookL2(0, 0));
    var r2 := r1 + [LookL2(0, 0)];
    InsertRunStores(cfg, r2, k, d2);
    var r3 := r2 + InsertRun(1, k, d2);
    OldEntryIsPromoted(cfg, Run(cfg, r3), k, Accessed(e1, 0));
    RunSnoc(cfg, r3, Promote(0, k));
  }
}
