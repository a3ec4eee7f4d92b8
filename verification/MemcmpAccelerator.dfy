/** Exact-bytes lookup at a few fixed offsets of the account data, in place of a scan. */
module MemcmpAccelerator {
  import opened Bytes
  import opened Wrappers

  datatype CommonOffset = Discriminator | Owner | Mint | Collection | Custom(at: nat) {
    function Offset(): nat {
      match this
      case Discriminator => 0
      case Owner => 32
      case Mint => 64
      case Collection => 1
      case Custom(at) => at
    }

    function Size(): nat {
      match this
      case Discriminator => 8
      case Owner => 32
      case Mint => 32
      case Collection => 32
      case Custom(_) => 0
    }
  }

  datatype OffsetIndex = OffsetIndex(index: map<seq<byte>, set<nat>>, entryCount: nat)

  type Indexes = map<nat, OffsetIndex>

  const NEW_INDEX := OffsetIndex(map[], 0)

  function InsertInto(i: OffsetIndex, bytes: seq<byte>, id: nat): OffsetIndex {
    OffsetIndex(
      i.index[bytes := (if bytes in i.index then i.index[bytes] else {}) + {id}], i.entryCount + 1)
  }

  function RemoveFrom(i: OffsetIndex, bytes: seq<byte>, id: nat): OffsetIndex {
    if bytes in i.index then
      OffsetIndex(i.index[bytes := i.index[bytes] - {id}], if i.entryCount > 0 then i.entryCount - 1 else 0)
    else i
  }

  /** Whether `data` reaches far enough to have a key at `d`; custom offsets never have one. */
  predicate Covers(d: CommonOffset, data: seq<byte>) {
    d.Size() > 0 && |data| >= d.Offset() + d.Size()
  }

  function Key(d: CommonOffset, data: seq<byte>): seq<byte>
    requires Covers(d, data)
  {
    data[d.Offset()..d.Offset() + d.Size()]
  }

  function Insert(s: Indexes, d: CommonOffset, id: nat, data: seq<byte>): Indexes {
    if Covers(d, data) then
      s[d.Offset() := InsertInto(if d.Offset() in s then s[d.Offset()] else NEW_INDEX, Key(d, data), id)]
    else s
  }

  function Remove(s: Indexes, d: CommonOffset, id: nat, data: seq<byte>): Indexes {
    if Covers(d, data) && d.Offset() in s then
      s[d.Offset() := RemoveFrom(s[d.Offset()], Key(d, data), id)]
    else s
  }

  function InsertAll(tracked: seq<CommonOffset>, s: Indexes, id: nat, data: seq<byte>): Indexes {
    if tracked == [] then s
    else Insert(InsertAll(tracked[..|tracked| - 1], s, id, data), tracked[|tracked| - 1], id, data)
  }

  function RemoveAll(tracked: seq<CommonOffset>, s: Indexes, id: nat, data: seq<byte>): Indexes {
    if tracked == [] then s
    else Remove(RemoveAll(tracked[..|tracked| - 1], s, id, data), tracked[|tracked| - 1], id, data)
  }

  function Query(s: Indexes, offset: nat, bytes: seq<byte>): Option<set<nat>> {
    if offset in s && bytes in s[offset].index then Some(s[offset].index[bytes]) else None
  }

  // ---------------------------------------------------------------- what the indexes hold

  predicate Holds(s: Indexes, o: nat, b: seq<byte>, x: nat) {
    Query(s, o, b).Some? && x in Query(s, o, b).value
  }

  predicate KeyedBy(d: CommonOffset, data: seq<byte>, o: nat, b: seq<byte>) {
    d.Offset() == o && Covers(d, data) && Key(d, data) == b
  }

  predicate Keyed(tracked: seq<CommonOffset>, data: seq<byte>, o: nat, b: seq<byte>) {
    exists d <- tracked :: KeyedBy(d, data, o, b)
  }

  /** How many tracked offsets put `data` under offset `o`. */
  function Times(tracked: seq<CommonOffset>, data: seq<byte>, o: nat): nat {
    if tracked == [] then 0
    else
      var d := tracked[|tracked| - 1];
      Times(tracked[..|tracked| - 1], data, o) + if d.Offset() == o && Covers(d, data) then 1 else 0
  }

  function EntryCount(s: Indexes, o: nat): nat {
    if o in s then s[o].entryCount else 0
  }

  lemma KeyedSnoc(tracked: seq<CommonOffset>, data: seq<byte>, o: nat, b: seq<byte>)
    requires tracked != []
    ensures Keyed(tracked, data, o, b) <==>
            Keyed(tracked[..|tracked| - 1], data, o, b) || KeyedBy(tracked[|tracked| - 1], data, o, b)
  {
    var front := tracked[..|tracked| - 1];
    assert forall d <- front :: d in tracked;
    assert forall d <- tracked :: d in front || d == tracked[|tracked| - 1];
    assert tracked[|tracked| - 1] in tracked;
  }

  lemma {:induction false} InsertAllHolds(tracked: seq<CommonOffset>, s: Indexes, id: nat, data: seq<byte>,
                                          o: nat, b: seq<byte>, x: nat)
    ensures var t := InsertAll(tracked, s, id, data);
      && (Holds(t, o, b, x) <==> Holds(s, o, b, x) || (x == id && Keyed(tracked, data, o, b)))
      && (Query(t, o, b).Some? <==> Query(s, o, b).Some? || Keyed(tracked, data, o, b))
  {
    if tracked != [] {
      InsertAllHolds(tracked[..|tracked| - 1], s, id, data, o, b, x);
      KeyedSnoc(tracked, data, o, b);
    }
  }

  lemma {:induction false} RemoveAllHolds(tracked: seq<CommonOffset>, s: Indexes, id: nat, data: seq<byte>,
                                          o: nat, b: seq<byte>, x: nat)
    ensures var t := RemoveAll(tracked, s, id, data);
      && (Holds(t, o, b, x) <==> Holds(s, o, b, x) && !(x == id && Keyed(tracked, data, o, b)))
      && (Query(t, o, b).Some? <==> Query(s, o, b).Some?)
  {
    if tracked != [] {
      RemoveAllHolds(tracked[..|tracked| - 1], s, id, data, o, b, x);
      KeyedSnoc(tracked, data, o, b);
    }
  }

  lemma {:induction false} InsertAllCount(tracked: seq<CommonOffset>, s: Indexes, id: nat, data: seq<byte>, o: nat)
    ensures EntryCount(InsertAll(tracked, s, id, data), o) == EntryCount(s, o) + Times(tracked, data, o)
  {
    if tracked != [] {
      InsertAllCount(tracked[..|tracked| - 1], s, id, data, o);
    }
  }

  /** Removing an account that is filed everywhere takes its entries off the count. */
  lemma {:induction false} RemoveAllCount(tracked: seq<CommonOffset>, s: Indexes, id: nat, data: seq<byte>, o: nat)
    requires EntryCount(s, o) >= Times(tracked, data, o)
    requires forall d <- tracked :: d.Offset() == o && Covers(d, data) ==> Query(s, o, Key(d, data)).Some?
    ensures EntryCount(RemoveAll(tracked, s, id, data), o) == EntryCount(s, o) - Times(tracked, data, o)
  {
    if tracked != [] {
      var front, d := tracked[..|tracked| - 1], tracked[|tracked| - 1];
      assert forall e <- front :: e in tracked;
      assert d in tracked;
      RemoveAllCount(front, s, id, data, o);
      if d.Offset() == o && Covers(d, data) {
        RemoveAllHolds(front, s, id, data, o, Key(d, data), id);
      }
    }
  }

  // ---------------------------------------------------------------- histories

  /** An update takes the old data out, if there is any, and files the new. */
  datatype Event = Update(id: nat, data: seq<byte>) | Close(id: nat)

  datatype State = State(indexes: Indexes, live: map<nat, seq<byte>>)

  function TakeOut(tracked: seq<CommonOffset>, s: State, id: nat): Indexes {
    if id in s.live then RemoveAll(tracked, s.indexes, id, s.live[id]) else s.indexes
  }

  function Apply(tracked: seq<CommonOffset>, s: State, e: Event): State {
    match e
    case Update(id, data) => State(InsertAll(tracked, TakeOut(tracked, s, id), id, data), s.live[id := data])
    case Close(id) => State(TakeOut(tracked, s, id), s.live - {id})
  }

  function Exec(tracked: seq<CommonOffset>, run: seq<Event>): State {
    if run == [] then State(map[], map[])
    else Apply(tracked, Exec(tracked, run[..|run| - 1]), run[|run| - 1])
  }

  lemma {:induction false} HoldsExactlyLive(tracked: seq<CommonOffset>, run: seq<Event>, o: nat, b: seq<byte>, x: nat)
    ensures var s := Exec(tracked, run);
      Holds(s.indexes, o, b, x) <==> x in s.live && Keyed(tracked, s.live[x], o, b)
  {
    if run != [] {
      var front, e := run[..|run| - 1], run[|run| - 1];
      var s := Exec(tracked, front);
      HoldsExactlyLive(tracked, front, o, b, x);
      if e.id in s.live {
        RemoveAllHolds(tracked, s.indexes, e.id, s.live[e.id], o, b, x);
      }
      if e.Update? {
        InsertAllHolds(tracked, TakeOut(tracked, s, e.id), e.id, e.data, o, b, x);
      }
    }
  }

  /** Some account has had data with these bytes at this offset. */
  predicate EverKeyed(tracked: seq<CommonOffset>, run: seq<Event>, o: nat, b: seq<byte>) {
    exists e <- run :: e.Update? && Keyed(tracked, e.data, o, b)
  }

  lemma {:induction false} KeysExactlyEver(tracked: seq<CommonOffset>, run: seq<Event>, o: nat, b: seq<byte>)
    ensures Query(Exec(tracked, run).indexes, o, b).Some? <==> EverKeyed(tracked, run, o, b)
  {
    if run != [] {
      var front, e := run[..|run| - 1], run[|run| - 1];
      var s := Exec(tracked, front);
      KeysExactlyEver(tracked, front, o, b);
      assert forall y <- front :: y in run;
      assert forall y <- run :: y in front || y == e;
      assert e in run;
      if e.id in s.live {
        RemoveAllHolds(tracked, s.indexes, e.id, s.live[e.id], o, b, 0);
      }
      if e.Update? {
        InsertAllHolds(tracked, TakeOut(tracked, s, e.id), e.id, e.data, o, b, 0);
      }
    }
  }

  // ---------------------------------------------------------------- against a linear scan

  predicate MatchesAt(data: seq<byte>, o: nat, b: seq<byte>) {
    o + |b| <= |data| && data[o..o + |b|] == b
  }

  function Scan(live: map<nat, seq<byte>>, o: nat, b: seq<byte>): set<nat> {
    set x | x in live && MatchesAt(live[x], o, b)
  }

  function Found(s: Indexes, o: nat, b: seq<byte>): set<nat> {
    if Query(s, o, b).Some? then Query(s, o, b).value else {}
  }

  /** At a tracked fixed-size offset, being keyed by `b` is matching `b` with the full size. */
  lemma KeyedIsMatch(tracked: seq<CommonOffset>, d: CommonOffset, data: seq<byte>, b: seq<byte>)
    requires d in tracked && d.Size() > 0
    ensures Keyed(tracked, data, d.Offset(), b) <==> |b| == d.Size() && MatchesAt(data, d.Offset(), b)
  {
    if Keyed(tracked, data, d.Offset(), b) {
      var e :| e in tracked && KeyedBy(e, data, d.Offset(), b);
      assert e == d;
    }
    if |b| == d.Size() && MatchesAt(data, d.Offset(), b) {
      assert KeyedBy(d, data, d.Offset(), b);
    }
  }

  /** A tracked lookup of the indexed size finds what a scan of the live accounts finds. */
  lemma FoundIsScan(tracked: seq<CommonOffset>, run: seq<Event>, d: CommonOffset, b: seq<byte>)
    requires d in tracked && d.Size() > 0 && |b| == d.Size()
    ensures var s := Exec(tracked, run); Found(s.indexes, d.Offset(), b) == Scan(s.live, d.Offset(), b)
  {
    var s := Exec(tracked, run);
    forall x: nat ensures x in Found(s.indexes, d.Offset(), b) <==> x in Scan(s.live, d.Offset(), b) {
      HoldsExactlyLive(tracked, run, d.Offset(), b, x);
      if x in s.live {
        KeyedIsMatch(tracked, d, s.live[x], b);
      }
    }
  }

  /** Whether an offset is one the accelerator indexes, with keys of `b`'s size. */
  predicate Indexed(tracked: seq<CommonOffset>, o: nat, b: seq<byte>) {
    exists d <- tracked :: d.Offset() == o && d.Size() == |b| && |b| > 0
  }

  /** For any offset and bytes, the lookup agrees with the scan exactly when the shape is indexed or
      nothing matches; shapes that are not indexed answer nothing at all. */
  lemma AgreesExactlyWhenIndexed(tracked: seq<CommonOffset>, run: seq<Event>, o: nat, b: seq<byte>)
    ensures var s := Exec(tracked, run);
      && (Found(s.indexes, o, b) == Scan(s.live, o, b) <==> Indexed(tracked, o, b) || Scan(s.live, o, b) == {})
      && (!Indexed(tracked, o, b) ==> Query(s.indexes, o, b).None?)
  {
    var s := Exec(tracked, run);
    if Indexed(tracked, o, b) {
      var d :| d in tracked && d.Offset() == o && d.Size() == |b| && |b| > 0;
      FoundIsScan(tracked, run, d, b);
    } else {
      KeysExactlyEver(tracked, run, o, b);
    }
  }

  /** The shapes in numbers: eight bytes at 0, 32 at 32, 64 or 1. */
  predicate Shape(tracked: seq<CommonOffset>, o: nat, n: nat) {
    || (Discriminator in tracked && o == 0 && n == 8)
    || (Owner in tracked && o == 32 && n == 32)
    || (Mint in tracked && o == 64 && n == 32)
    || (Collection in tracked && o == 1 && n == 32)
  }

  /** A lookup of a shape that is tracked finds what a scan of the live accounts finds, and no other lookup finds
      anything. */
  lemma LookupByShape(tracked: seq<CommonOffset>, run: seq<Event>, o: nat, b: seq<byte>)
    ensures var s := Exec(tracked, run);
      if Shape(tracked, o, |b|) then
        Found(s.indexes, o, b) == (set x | x in s.live && o + |b| <= |s.live[x]| && s.live[x][o..o + |b|] == b)
      else Query(s.indexes, o, b).None?
  {
    assert Indexed(tracked, o, b) <==> Shape(tracked, o, |b|) by {
      if Indexed(tracked, o, b) {
        var d :| d in tracked && d.Offset() == o && d.Size() == |b| && |b| > 0;
      }
      if Shape(tracked, o, |b|) {
        var d := if o == 0 then Discriminator else if o == 32 then Owner else if o == 64 then Mint else Collection;
        assert d in tracked && d.Offset() == o && d.Size() == |b|;
      }
    }
    AgreesExactlyWhenIndexed(tracked, run, o, b);
    hide Exec, Query, Indexed;
    if Shape(tracked, o, |b|) {
      var s := Exec(tracked, run);
      assert Scan(s.live, o, b) == (set x | x in s.live && o + |b| <= |s.live[x]| && s.live[x][o..o + |b|] == b);
    }
  }

  // ---------------------------------------------------------------- entry counts

  function Covering(live: map<nat, seq<byte>>, d: CommonOffset): set<nat> {
    set x | x in live && Covers(d, live[x])
  }

  function Occurrences(tracked: seq<CommonOffset>, d: CommonOffset): nat {
    multiset(tracked)[d]
  }

  lemma {:induction false} TimesOfFixed(tracked: seq<CommonOffset>, d: CommonOffset, data: seq<byte>)
    requires d.Size() > 0
    ensures Times(tracked, data, d.Offset()) == if Covers(d, data) then Occurrences(tracked, d) else 0
  {
    if tracked != [] {
      var front, last := tracked[..|tracked| - 1], tracked[|tracked| - 1];
      TimesOfFixed(front, d, data);
      assert tracked == front + [last];
      assert last.Offset() == d.Offset() && Covers(last, data) ==> last == d;
    }
  }

  /** One live account more or less. */
  lemma CoveringOne(live: map<nat, seq<byte>>, d: CommonOffset, id: nat)
    requires id in live
    ensures |Covering(live, d)| == |Covering(live - {id}, d)| + if Covers(d, live[id]) then 1 else 0
  {
    hide Covers;
    if Covers(d, live[id]) {
      assert Covering(live, d) == Covering(live - {id}, d) + {id};
    } else {
      assert Covering(live, d) == Covering(live - {id}, d);
    }
  }

  lemma LiveIsFiled(tracked: seq<CommonOffset>, run: seq<Event>, o: nat, id: nat)
    requires id in Exec(tracked, run).live
    ensures var s := Exec(tracked, run);
      forall e <- tracked :: e.Offset() == o && Covers(e, s.live[id]) ==> Query(s.indexes, o, Key(e, s.live[id])).Some?
  {
    var s := Exec(tracked, run);
    hide Exec;
    var data := s.live[id];
    forall e | e in tracked && e.Offset() == o && Covers(e, data)
      ensures Query(s.indexes, o, Key(e, data)).Some?
    {
      HoldsExactlyLive(tracked, run, o, Key(e, data), id);
      assert KeyedBy(e, data, o, Key(e, data));
    }
  }

  lemma TimesOne(n: nat, k: nat)
    ensures n * (k + 1) == n * k + n
  {
  }

  lemma TakeOutCount(tracked: seq<CommonOffset>, run: seq<Event>, d: CommonOffset, id: nat)
    requires d.Size() > 0 && id in Exec(tracked, run).live
    requires var s := Exec(tracked, run);
      EntryCount(s.indexes, d.Offset()) == Occurrences(tracked, d) * |Covering(s.live, d)|
    ensures var s := Exec(tracked, run);
      EntryCount(TakeOut(tracked, s, id), d.Offset()) == Occurrences(tracked, d) * |Covering(s.live - {id}, d)|
  {
    var s, n := Exec(tracked, run), Occurrences(tracked, d);
    TimesOfFixed(tracked, d, s.live[id]);
    LiveIsFiled(tracked, run, d.Offset(), id);
    CoveringOne(s.live, d, id);
    TimesOne(n, |Covering(s.live - {id}, d)|);
    hide Exec, Covering, Times, Occurrences, EntryCount, Query, RemoveAll;
    RemoveAllCount(tracked, s.indexes, id, s.live[id], d.Offset());
  }

  lemma PutInCount(tracked: seq<CommonOffset>, indexes: Indexes, live: map<nat, seq<byte>>, d: CommonOffset,
                   id: nat, data: seq<byte>)
    requires d.Size() > 0
    requires EntryCount(indexes, d.Offset()) == Occurrences(tracked, d) * |Covering(live - {id}, d)|
    ensures EntryCount(InsertAll(tracked, indexes, id, data), d.Offset()) ==
            Occurrences(tracked, d) * |Covering(live[id := data], d)|
  {
    hide *;
    var after := live[id := data];
    InsertAllCount(tracked, indexes, id, data, d.Offset());
    TimesOfFixed(tracked, d, data);
    assert after - {id} == live - {id};
    CoveringOne(after, d, id);
    TimesOne(Occurrences(tracked, d), |Covering(live - {id}, d)|);
  }

  /** The entry count of an offset is the number of live accounts long enough to have a key there,
      once for each time the offset is tracked. */
  lemma {:induction false} EntriesAreLive(tracked: seq<CommonOffset>, run: seq<Event>, d: CommonOffset)
    requires d.Size() > 0
    ensures var s := Exec(tracked, run);
      EntryCount(s.indexes, d.Offset()) == Occurrences(tracked, d) * |Covering(s.live, d)|
  {
    if run == [] {
      assert Covering(map[], d) == {};
    } else {
      var front, e := run[..|run| - 1], run[|run| - 1];
      var s, t := Exec(tracked, front), Exec(tracked, run);
      assert t == Apply(tracked, s, e);
      EntriesAreLive(tracked, front, d);
      hide Exec, Covering, EntryCount, InsertAll, RemoveAll;
      if e.id in s.live {
        TakeOutCount(tracked, front, d, e.id);
      } else {
        assert s.live - {e.id} == s.live;
      }
      if e.Update? {
        PutInCount(tracked, TakeOut(tracked, s, e.id), s.live, d, e.id, e.data);
      }
    }
  }

  // ---------------------------------------------------------------- the object

  class ProgramMemcmpAccelerator {
    const trackedOffsets: seq<CommonOffset>
    var offsetIndexes: Indexes

    constructor (trackedOffsets: seq<CommonOffset>)
      ensures this.trackedOffsets == trackedOffsets && offsetIndexes == map[]
    {
      this.trackedOffsets := trackedOffsets;
      offsetIndexes := map[];
    }

    method InsertAccount(id: nat, data: seq<byte>)
      modifies this
      ensures offsetIndexes == InsertAll(trackedOffsets, old(offsetIndexes), id, data)
    {
      var i := 0;
      while i < |trackedOffsets|
        invariant i <= |trackedOffsets|
        invariant offsetIndexes == InsertAll(trackedOffsets[..i], old(offsetIndexes), id, data)
      {
        var d := trackedOffsets[i];
        assert trackedOffsets[..i + 1][..i] == trackedOffsets[..i];
        i := i + 1;
        if |data| < d.Offset() + d.Size() {
          continue;
        }
        if d.Size() > 0 {
          var bytes := data[d.Offset()..d.Offset() + d.Size()];
          var index := if d.Offset() in offsetIndexes then offsetIndexes[d.Offset()] else NEW_INDEX;
          offsetIndexes := offsetIndexes[d.Offset() := InsertInto(index, bytes, id)];
        }
      }
      assert trackedOffsets[..i] == trackedOffsets;
    }

    method RemoveAccount(id: nat, data: seq<byte>)
      modifies this
      ensures offsetIndexes == RemoveAll(trackedOffsets, old(offsetIndexes), id, data)
    {
      var i := 0;
      while i < |trackedOffsets|
        invariant i <= |trackedOffsets|
        invariant offsetIndexes == RemoveAll(trackedOffsets[..i], old(offsetIndexes), id, data)
      {
        var d := trackedOffsets[i];
        assert trackedOffsets[..i + 1][..i] == trackedOffsets[..i];
        i := i + 1;
        if |data| < d.Offset() + d.Size() {
          continue;
        }
        if d.Size() > 0 {
          var bytes := data[d.Offset()..d.Offset() + d.Size()];
          if d.Offset() in offsetIndexes {
            offsetIndexes := offsetIndexes[d.Offset() := RemoveFrom(offsetIndexes[d.Offset()], bytes, id)];
          }
        }
      }
      assert trackedOffsets[..i] == trackedOffsets;
    }
  }
}
