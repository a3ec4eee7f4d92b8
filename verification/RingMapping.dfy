/**
 How the ring buffer's data area lies in its shared file.  The file, and with it the mapping, is
 `capacity` bytes long and begins with the buffer's header, while the writer's guard lets the data area
 behind that header grow to `capacity` bytes too.
 */
module RingMapping {
  import opened Bytes
  import opened EntryCodec
  import opened RingProtocol

  /** Eighty bytes of fields, aligned to 64. */
  const RING_HEADER: nat := 128

  /** Data byte `j` of a buffer created with `capacity` lies inside the mapping. */
  predicate Mapped(capacity: nat, j: nat) {
    RING_HEADER + j < capacity
  }

  predicate AreaMapped(capacity: nat, from: nat, to: nat) {
    forall j :: from <= j < to ==> Mapped(capacity, j)
  }

  /** A record that the guard lets through is stored inside the mapping exactly when the header fits as well. */
  lemma AcceptedRecordMapped(s: State, e: Entry)
    requires Inv(s) && Fits(e) && s.writer.Idle? && s.active
    ensures Apply(s, Begin(e)).writer.Filling? <==> s.writePos + |Encode(e)| <= |s.mem|
    ensures AreaMapped(|s.mem|, s.writePos, s.writePos + |Encode(e)|) <==>
      128 + s.writePos + |Encode(e)| <= |s.mem|
  {
    hide Inv, HeaderBytes;
    var last := s.writePos + |Encode(e)| - 1;
    assert AreaMapped(|s.mem|, s.writePos, last + 1) ==> Mapped(|s.mem|, last);
  }

  // ---------------------------------------------------------------- whole runs

  /** The action stores a byte, at this data position. */
  predicate Stores(s: State, a: Action) {
    && a.Fill? && s.writer.Filling?
    && a.k < |s.writer.done| == |Encode(s.writer.e)| && s.writePos + a.k < |s.mem|
  }

  /** Every byte the run stores is stored inside the mapping. */
  predicate AllStoresMapped(mem: seq<byte>, run: seq<Action>) {
    run != [] ==>
      var s := Exec(Init(mem), run[..|run| - 1]);
      var a := run[|run| - 1];
      && AllStoresMapped(mem, run[..|run| - 1])
      && (Stores(s, a) ==> Mapped(|mem|, s.writePos + a.k))
  }

  /** The end of the furthest byte stored so far. */
  function Furthest(mem: seq<byte>, run: seq<Action>): nat {
    if run == [] then 0
    else
      var before := Furthest(mem, run[..|run| - 1]);
      var s := Exec(Init(mem), run[..|run| - 1]);
      var a := run[|run| - 1];
      if Stores(s, a) && s.writePos + a.k + 1 > before then s.writePos + a.k + 1 else before
  }

  lemma {:induction false} MappedUpToFurthest(mem: seq<byte>, run: seq<Action>)
    ensures AllStoresMapped(mem, run) <==> Furthest(mem, run) == 0 || RING_HEADER + Furthest(mem, run) <= |mem|
  {
    if run != [] {
      MappedUpToFurthest(mem, run[..|run| - 1]);
      hide Exec, Stores;
    }
  }

  predicate ReachesTo(s: State, furthest: nat) {
    if s.writer.Filling? then
      && |s.writer.done| == |Encode(s.writer.e)|
      && s.writePos <= furthest <= s.writePos + |Encode(s.writer.e)|
      && forall k :: 0 <= k < |s.writer.done| && s.writer.done[k] ==> s.writePos + k < furthest
    else furthest == s.writePos
  }

  lemma ReachesStep(s: State, a: Action, before: nat)
    requires Inv(s) && FitsIfBegin(a) && ReachesTo(s, before)
    ensures ReachesTo(Apply(s, a), if Stores(s, a) && s.writePos + a.k + 1 > before then s.writePos + a.k + 1 else before)
  {
    hide Log, HeaderBytes, MemoryInv, ReaderInv;
    match a
    case Publish =>
      if s.writer.Filling? && AllDone(s.writer.done) {
        assert s.writer.done[|s.writer.done| - 1];
      }
    case _ =>
  }

  lemma {:induction false} StoresReachWritePos(mem: seq<byte>, run: seq<Action>)
    requires forall a <- run :: FitsIfBegin(a)
    ensures ReachesTo(Exec(Init(mem), run), Furthest(mem, run))
  {
    if run != [] {
      var front, a := run[..|run| - 1], run[|run| - 1];
      assert a in run && forall b <- front :: b in run;
      StoresReachWritePos(mem, front);
      RunInv(mem, front);
      ReachesStep(Exec(Init(mem), front), a, Furthest(mem, front));
      hide ReachesTo, Apply, Inv, Stores;
    }
  }

  /** Between two writes: everything ever stored lay inside the mapping exactly when the published bytes do,
      that is when they leave room for the header. */
  lemma StoresStayMappedExactly(mem: seq<byte>, run: seq<Action>)
    requires forall a <- run :: FitsIfBegin(a)
    requires !Exec(Init(mem), run).writer.Filling?
    ensures var s := Exec(Init(mem), run);
      && (AllStoresMapped(mem, run) <==> s.writePos == 0 || 128 + s.writePos <= |mem|)
      && (AllStoresMapped(mem, run) <==> AreaMapped(|mem|, 0, s.writePos))
  {
    StoresReachWritePos(mem, run);
    MappedUpToFurthest(mem, run);
    var s := Exec(Init(mem), run);
    hide Exec, AllStoresMapped, Furthest;
    assert s.writePos > 0 && AreaMapped(|mem|, 0, s.writePos) ==> Mapped(|mem|, s.writePos - 1);
  }

  // ---------------------------------------------------------------- a run that leaves the mapping

  function Fills(n: nat): seq<Action> {
    if n == 0 then [] else Fills(n - 1) + [Fill(n - 1)]
  }

  /** `write` of one record, byte by byte. */
  function WriteRun(e: Entry): seq<Action> {
    [Begin(e)] + Fills(|Encode(e)|) + [Publish] + [Bump]
  }

  function RecordOf(size: nat, slot: u64, version: u64, key: Pubkey): Entry
    requires size >= HEADER_SIZE
  {
    Entry(slot, version, key, Zeros(size - HEADER_SIZE))
  }

  /** The records that fill `room` bytes: bare headers, and a last one with what is left as its data. */
  function FillerRecords(room: nat, slot: u64, version: u64, key: Pubkey): seq<Entry> {
    if room < HEADER_SIZE then []
    else if room < 2 * HEADER_SIZE then [RecordOf(room, slot, version, key)]
    else [RecordOf(HEADER_SIZE, slot, version, key)] + FillerRecords(room - HEADER_SIZE, slot, version, key)
  }

  function WriteAll(es: seq<Entry>): seq<Action> {
    if es == [] then [] else WriteRun(es[0]) + WriteAll(es[1..])
  }

  lemma ExecSnoc(s: State, run: seq<Action>, a: Action)
    ensures Exec(s, run + [a]) == Apply(Exec(s, run), a)
  {
    assert (run + [a])[..|run|] == run;
  }

  lemma {:induction false} ExecAppend(s: State, a: seq<Action>, b: seq<Action>)
    ensures Exec(s, a + b) == Exec(Exec(s, a), b)
  {
    hide Apply;
    if b == [] {
      assert a + b == a;
    } else {
      ExecAppend(s, a, b[..|b| - 1]);
      assert a + b == (a + b[..|b| - 1]) + [b[|b| - 1]];
      ExecSnoc(s, a + b[..|b| - 1], b[|b| - 1]);
    }
  }

  /** The writer is between two writes, with room left. */
  ghost predicate ReadyFor(s: State, size: nat) {
    Inv(s) && s.writer.Idle? && s.active && s.writePos + size <= |s.mem|
  }

  /** `t` is `s` after the first `n` byte stores of a write of `e`. */
  ghost predicate Filled(s: State, t: State, e: Entry, n: nat) {
    && Inv(t) && |t.mem| == |s.mem| && t.writePos == s.writePos && t.written == s.written && t.active == s.active
    && t.writer.Filling? && t.writer.e == e && |t.writer.done| == |Encode(e)|
    && forall k :: 0 <= k < n && k < |t.writer.done| ==> t.writer.done[k]
  }

  lemma BeginsWrite(s: State, e: Entry)
    requires Fits(e) && ReadyFor(s, |Encode(e)|)
    ensures Filled(s, Exec(s, [Begin(e)]), e, 0)
  {
    hide Inv, Encode, HeaderBytes;
    ExecSnoc(s, [], Begin(e));
    assert [] + [Begin(e)] == [Begin(e)];
    ApplyKeeps(s, Begin(e));
  }

  lemma {:induction false} FillsRecord(s: State, e: Entry, n: nat)
    requires Fits(e) && ReadyFor(s, |Encode(e)|) && n <= |Encode(e)|
    ensures Filled(s, Exec(s, [Begin(e)] + Fills(n)), e, n)
  {
    hide Inv, Encode, HeaderBytes, Apply;
    if n == 0 {
      assert [Begin(e)] + Fills(0) == [Begin(e)];
      BeginsWrite(s, e);
    } else {
      FillsRecord(s, e, n - 1);
      assert [Begin(e)] + Fills(n) == [Begin(e)] + Fills(n - 1) + [Fill(n - 1)];
      var t := Exec(s, [Begin(e)] + Fills(n - 1));
      ExecSnoc(s, [Begin(e)] + Fills(n - 1), Fill(n - 1));
      hide Exec, Fills;
      FillStep(t, n - 1);
    }
  }

  lemma WritesRecord(s: State, e: Entry)
    requires Fits(e) && ReadyFor(s, |Encode(e)|)
    ensures var t := Exec(s, WriteRun(e));
      && ReadyFor(t, 0) && |t.mem| == |s.mem|
      && t.writePos == s.writePos + |Encode(e)| && t.written == s.written + [e]
  {
    hide Inv, Encode, HeaderBytes, Apply, Fills;
    FillsRecord(s, e, |Encode(e)|);
    var r := [Begin(e)] + Fills(|Encode(e)|);
    ExecSnoc(s, r, Publish);
    ExecSnoc(s, r + [Publish], Bump);
    hide Exec;
    var t := Exec(s, r);
    PublishStep(t);
    BumpStep(Apply(t, Publish));
  }

  lemma {:induction false} FillsFit(n: nat)
    ensures forall a <- Fills(n) :: FitsIfBegin(a)
  {
    if n > 0 {
      FillsFit(n - 1);
    }
  }

  lemma {:induction false} WriteAllFits(es: seq<Entry>)
    requires forall e <- es :: Fits(e)
    ensures forall a <- WriteAll(es) :: FitsIfBegin(a)
  {
    if es != [] {
      assert es[0] in es && forall e <- es[1..] :: e in es;
      WriteAllFits(es[1..]);
      FillsFit(|Encode(es[0])|);
      hide Fits, Fills, Encode;
    }
  }

  lemma {:induction false} FillingFits(room: nat, slot: u64, version: u64, key: Pubkey)
    ensures forall e <- FillerRecords(room, slot, version, key) :: Fits(e)
  {
    if room >= 2 * HEADER_SIZE {
      FillingFits(room - HEADER_SIZE, slot, version, key);
    }
  }

  lemma FillingHead(room: nat, slot: u64, version: u64, key: Pubkey)
    requires room >= HEADER_SIZE
    ensures var es := FillerRecords(room, slot, version, key);
      && es != [] && Fits(es[0]) && HEADER_SIZE <= |Encode(es[0])| <= room
      && es[1..] == FillerRecords(room - |Encode(es[0])|, slot, version, key)
      && (room - |Encode(es[0])| == 0 || room - |Encode(es[0])| >= HEADER_SIZE)
  {
    var e := FillerRecords(room, slot, version, key)[0];
    assert |Encode(e)| == if room < 2 * HEADER_SIZE then room else HEADER_SIZE;
    hide Encode, HeaderBytes;
  }

  lemma {:induction false} FillsArea(s: State, room: nat, slot: u64, version: u64, key: Pubkey)
    requires ReadyFor(s, room) && s.writePos + room == |s.mem| && (room == 0 || room >= HEADER_SIZE)
    ensures var es := FillerRecords(room, slot, version, key); var t := Exec(s, WriteAll(es));
      && t.writer.Idle? && |t.mem| == |s.mem| && t.writePos == |s.mem| && t.written == s.written + es
    decreases room
  {
    hide Inv, Encode, HeaderBytes, FillerRecords, WriteRun, WriteAll, Exec, Fits;
    var es := FillerRecords(room, slot, version, key);
    if room == 0 {
      FillingNothing(s, slot, version, key);
      assert s.written + [] == s.written;
    } else {
      FillingHead(room, slot, version, key);
      var e, rest := es[0], es[1..];
      WriteAllHead(es);
      WritesRecord(s, e);
      FillsArea(Exec(s, WriteRun(e)), room - |Encode(e)|, slot, version, key);
      ExecAppend(s, WriteRun(e), WriteAll(rest));
      assert s.written + [e] + rest == s.written + es;
    }
  }

  lemma FillingNothing(s: State, slot: u64, version: u64, key: Pubkey)
    ensures FillerRecords(0, slot, version, key) == [] && Exec(s, WriteAll([])) == s
  {
  }

  lemma WriteAllHead(es: seq<Entry>)
    requires es != []
    ensures WriteAll(es) == WriteRun(es[0]) + WriteAll(es[1..])
  {
  }

  /** Every buffer with room for a record can be filled, and then its last bytes lie outside the mapping. */
  lemma FillingLeavesMapping(mem: seq<byte>, slot: u64, version: u64, key: Pubkey)
    requires HEADER_SIZE <= |mem|
    ensures var es := FillerRecords(|mem|, slot, version, key);
      && (forall e <- es :: Fits(e))
      && Exec(Init(mem), WriteAll(es)).written == es && Exec(Init(mem), WriteAll(es)).writePos == |mem|
      && !AllStoresMapped(mem, WriteAll(es))
      && !Mapped(|mem|, |mem| - 1)
  {
    var es := FillerRecords(|mem|, slot, version, key);
    RunInv(mem, []);
    FillingFits(|mem|, slot, version, key);
    WriteAllFits(es);
    FillsArea(Init(mem), |mem|, slot, version, key);
    hide Exec, AllStoresMapped, FillerRecords, WriteAll, FitsIfBegin, Fits, Inv;
    StoresStayMappedExactly(mem, WriteAll(es));
  }
}
