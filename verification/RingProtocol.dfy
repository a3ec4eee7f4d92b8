/**
 The publish/consume protocol of the shared-memory ring buffer, as a state machine whose steps are
 the single memory operations of one writer and of any number of readers, in any order.
 */
module RingProtocol {
  import opened Bytes
  import opened EntryCodec

  /** Where the writer stands inside `write`: `done` marks the record bytes already stored. */
  datatype Writer = Idle | Filling(e: Entry, done: seq<bool>) | Published

  /** Where a reader stands inside `read_next`. */
  datatype Phase = Ready | Loaded(limit: nat) | Parsed(h: Header)

  datatype Reader = Reader(pos: nat, out: seq<Entry>, phase: Phase, corrupted: bool, outOfBounds: bool)

  /** `mem` is the data area, and `written` the history of published entries. */
  datatype State = State(
    mem: seq<byte>, writePos: nat, entryCount: nat, active: bool,
    writer: Writer, readers: map<nat, Reader>, written: seq<Entry>)

  datatype Action =
    | Begin(e: Entry) | Fill(k: nat) | Publish | Bump | Close
    | Open(r: nat) | Load(r: nat) | Parse(r: nat) | Deliver(r: nat)

  function Init(mem: seq<byte>): State {
    State(mem, 0, 0, true, Idle, map[], [])
  }

  predicate AllDone(done: seq<bool>) {
    forall k :: 0 <= k < |done| ==> done[k]
  }

  function WriterStep(s: State, a: Action): State
    requires a.Begin? || a.Fill? || a.Publish? || a.Bump? || a.Close?
  {
    match a
    case Begin(e) =>
      // A stopped or full buffer makes `write` return an error and change nothing.
      if s.writer.Idle? && s.active && s.writePos + EntrySize(e) <= |s.mem| then
        s.(writer := Filling(e, seq(|Encode(e)|, _ => false)))
      else s
    case Fill(k) =>
      if s.writer.Filling? && k < |s.writer.done| == |Encode(s.writer.e)| && s.writePos + k < |s.mem| then
        s.(mem := s.mem[s.writePos + k := Encode(s.writer.e)[k]],
           writer := Filling(s.writer.e, s.writer.done[k := true]))
      else s
    case Publish =>
      if s.writer.Filling? && AllDone(s.writer.done) then
        s.(writePos := s.writePos + EntrySize(s.writer.e),
           written := s.written + [s.writer.e],
           writer := Published)
      else s
    case Bump =>
      if s.writer.Published? then s.(entryCount := s.entryCount + 1, writer := Idle) else s
    case Close =>
      s.(active := false)
  }

  function LoadStep(x: Reader, writePos: nat): Reader {
    if x.phase.Ready? && x.pos < writePos then x.(phase := Loaded(writePos)) else x
  }

  function ParseStep(x: Reader, mem: seq<byte>): Reader {
    if !x.phase.Loaded? then x
    else if x.pos + HEADER_SIZE > |mem| then x.(phase := Ready, outOfBounds := true)
    else
      var h := ParseHeader(mem[x.pos..x.pos + HEADER_SIZE]);
      if h.size == 0 || x.pos + h.size > x.phase.limit then x.(phase := Ready, corrupted := true)
      else x.(phase := Parsed(h))
  }

  function DeliverStep(x: Reader, mem: seq<byte>): Reader {
    if !x.phase.Parsed? then x
    else
      var h := x.phase.h;
      var start := x.pos + HEADER_SIZE;
      if start + h.dataLen > |mem| then x.(phase := Ready, outOfBounds := true)
      else
        var e := Entry(h.slot, h.version, h.key, mem[start..start + h.dataLen]);
        x.(pos := x.pos + h.size, out := x.out + [e], phase := Ready)
  }

  function Apply(s: State, a: Action): State {
    match a
    case Open(r) =>
      if r in s.readers then s else s.(readers := s.readers[r := Reader(0, [], Ready, false, false)])
    case Load(r) =>
      if r !in s.readers then s else s.(readers := s.readers[r := LoadStep(s.readers[r], s.writePos)])
    case Parse(r) =>
      if r !in s.readers then s else s.(readers := s.readers[r := ParseStep(s.readers[r], s.mem)])
    case Deliver(r) =>
      if r !in s.readers then s else s.(readers := s.readers[r := DeliverStep(s.readers[r], s.mem)])
    case _ => WriterStep(s, a)
  }

  function Exec(s: State, run: seq<Action>): State {
    if run == [] then s else Apply(Exec(s, run[..|run| - 1]), run[|run| - 1])
  }

  // ---------------------------------------------------------------- invariant

  predicate MemoryInv(s: State) {
    && s.writePos == |Log(s.written)| <= |s.mem|
    && s.mem[..s.writePos] == Log(s.written)
    && (forall e <- s.written :: Fits(e))
    && s.entryCount + (if s.writer.Published? then 1 else 0) == |s.written|
  }

  predicate WriterInv(s: State) {
    s.writer.Filling? ==>
      var bytes := Encode(s.writer.e);
      && Fits(s.writer.e)
      && s.writePos + |bytes| <= |s.mem|
      && |s.writer.done| == |bytes|
      && (forall k :: 0 <= k < |bytes| && s.writer.done[k] ==> s.mem[s.writePos + k] == bytes[k])
  }

  predicate ReaderInv(x: Reader, written: seq<Entry>) {
    && !x.corrupted && !x.outOfBounds
    && x.out <= written
    && x.pos == |Log(x.out)|
    && (x.phase.Loaded? ==> |x.out| < |written| && |Log(written[..|x.out| + 1])| <= x.phase.limit)
    && (x.phase.Parsed? ==> |x.out| < |written| && x.phase.h == HeaderOf(written[|x.out|]))
  }

  predicate Inv(s: State) {
    MemoryInv(s) && WriterInv(s) && forall r <- s.readers :: ReaderInv(s.readers[r], s.written)
  }

  /** The pending entry of a reader lies whole inside the published prefix. */
  lemma PendingEntry(s: State, x: Reader)
    requires MemoryInv(s) && x.out <= s.written && x.pos == |Log(x.out)| && |x.out| < |s.written|
    ensures var e := s.written[|x.out|];
      && Fits(e)
      && x.pos + |Encode(e)| == |Log(s.written[..|x.out| + 1])| <= s.writePos
      && s.mem[x.pos..x.pos + |Encode(e)|] == Encode(e)
  {
    hide Encode;
    hide HeaderBytes;
    var n := |x.out|;
    var e := s.written[n];
    assert s.written[..n] == x.out;
    LogAt(s.written, n);
    hide Log;
    SliceOfPrefix(s.mem, s.writePos, x.pos, x.pos + |Encode(e)|);
  }

  lemma SliceOfPrefix(mem: seq<byte>, n: nat, i: nat, j: nat)
    requires i <= j <= n <= |mem|
    ensures mem[i..j] == mem[..n][i..j]
  {
  }

  /** A reader has bytes left exactly when it has entries left. */
  lemma BehindIffPending(s: State, x: Reader)
    requires MemoryInv(s) && x.out <= s.written && x.pos == |Log(x.out)|
    ensures x.pos < s.writePos <==> |x.out| < |s.written|
  {
    if |x.out| < |s.written| {
      PendingEntry(s, x);
    } else {
      assert x.out == s.written;
    }
  }

  /** What the bytes at a reader's position parse to. */
  lemma NextFrame(s: State, pos: nat, taken: nat)
    requires Inv(s) && taken <= |s.written| && pos == |Log(s.written[..taken])|
    ensures pos < s.writePos <==> taken < |s.written|
    ensures taken < |s.written| ==>
      var e := s.written[taken];
      && Fits(e) && pos + HEADER_SIZE + |e.data| <= s.writePos <= |s.mem|
      && ParseHeader(s.mem[pos..pos + HEADER_SIZE]) == Header(HEADER_SIZE + |e.data|, e.slot, e.version, e.key, |e.data|)
      && s.mem[pos + HEADER_SIZE..pos + HEADER_SIZE + |e.data|] == e.data
      && pos + HEADER_SIZE + |e.data| == |Log(s.written[..taken + 1])|
  {
    hide Log;
    hide HeaderBytes;
    hide ParseHeader;
    hide WriterInv;
    var x := Reader(pos, s.written[..taken], Ready, false, false);
    BehindIffPending(s, x);
    if taken < |s.written| {
      PendingEntry(s, x);
      ReadBack(s.mem, pos, s.written[taken]);
    }
  }

  lemma LoadKeeps(s: State, x: Reader)
    requires MemoryInv(s) && ReaderInv(x, s.written)
    ensures ReaderInv(LoadStep(x, s.writePos), s.written)
  {
    BehindIffPending(s, x);
    if x.pos < s.writePos {
      PendingEntry(s, x);
    }
  }

  lemma ParseKeeps(s: State, x: Reader)
    requires MemoryInv(s) && ReaderInv(x, s.written)
    ensures ReaderInv(ParseStep(x, s.mem), s.written)
    ensures x.phase.Loaded? ==> ParseStep(x, s.mem).phase.Parsed?
  {
    hide Log;
    hide Encode;
    hide ParseHeader;
    hide HeaderBytes;
    if x.phase.Loaded? {
      PendingEntry(s, x);
      ReadBack(s.mem, x.pos, s.written[|x.out|]);
    }
  }

  lemma DeliverKeeps(s: State, x: Reader)
    requires MemoryInv(s) && ReaderInv(x, s.written)
    ensures ReaderInv(DeliverStep(x, s.mem), s.written)
    ensures x.phase.Parsed? ==> DeliverStep(x, s.mem).out == x.out + [s.written[|x.out|]]
  {
    hide Log;
    hide Encode;
    hide ParseHeader;
    hide HeaderBytes;
    if x.phase.Parsed? {
      PendingEntry(s, x);
      var e := s.written[|x.out|];
      ReadBack(s.mem, x.pos, e);
      LogSnoc(x.out, e);
    }
  }

  /** Publishing more entries disturbs no reader. */
  lemma ReaderMonotone(x: Reader, written: seq<Entry>, e: Entry)
    requires ReaderInv(x, written)
    ensures ReaderInv(x, written + [e])
  {
    if |x.out| < |written| {
      assert (written + [e])[..|x.out| + 1] == written[..|x.out| + 1];
    }
  }

  lemma PublishKeeps(s: State)
    requires Inv(s)
    ensures Inv(Apply(s, Publish))
  {
    hide Log;
    hide Encode;
    hide ParseHeader;
    hide HeaderBytes;
    if s.writer.Filling? && AllDone(s.writer.done) {
      var e := s.writer.e;
      var bytes := Encode(e);
      var t := Apply(s, Publish);
      LogSnoc(s.written, e);
      assert s.mem[s.writePos..s.writePos + |bytes|] == bytes;
      assert t.mem[..t.writePos] == s.mem[..s.writePos] + s.mem[s.writePos..t.writePos];
      forall r | r in t.readers ensures ReaderInv(t.readers[r], t.written) {
        ReaderMonotone(s.readers[r], s.written, e);
      }
    }
  }

  predicate FitsIfBegin(a: Action) {
    a.Begin? ==> Fits(a.e)
  }

  lemma ReaderKeeps(s: State, r: nat, x: Reader)
    requires Inv(s) && ReaderInv(x, s.written)
    ensures Inv(s.(readers := s.readers[r := x]))
  {
    hide MemoryInv, WriterInv, ReaderInv;
    assert MemoryInv(s.(readers := s.readers[r := x])) && WriterInv(s.(readers := s.readers[r := x])) by {
      SameMemory(s, s.(readers := s.readers[r := x]));
    }
  }

  lemma SameMemory(s: State, t: State)
    requires t == s.(readers := t.readers)
    ensures MemoryInv(t) <==> MemoryInv(s)
    ensures WriterInv(t) <==> WriterInv(s)
  {
    hide Log, Encode, HeaderBytes;
  }

  lemma ReaderStepKeeps(s: State, a: Action)
    requires Inv(s) && (a.Open? || a.Load? || a.Parse? || a.Deliver?)
    ensures Inv(Apply(s, a))
  {
    hide Log, Encode, ParseHeader, HeaderBytes, WriterInv, LoadStep, ParseStep, DeliverStep;
    if a.Open? {
      LogNil();
      assert ReaderInv(Reader(0, [], Ready, false, false), s.written);
      if a.r !in s.readers {
        ReaderKeeps(s, a.r, Reader(0, [], Ready, false, false));
      }
    } else if a.r in s.readers {
      var x := s.readers[a.r];
      LoadKeeps(s, x);
      ParseKeeps(s, x);
      DeliverKeeps(s, x);
      hide ReaderInv, MemoryInv;
      ReaderKeeps(s, a.r, LoadStep(x, s.writePos));
      ReaderKeeps(s, a.r, ParseStep(x, s.mem));
      ReaderKeeps(s, a.r, DeliverStep(x, s.mem));
    }
  }

  lemma ApplyKeeps(s: State, a: Action)
    requires Inv(s) && FitsIfBegin(a)
    ensures Inv(Apply(s, a))
  {
    hide Log, Encode, ParseHeader, HeaderBytes;
    match a
    case Publish => PublishKeeps(s);
    case Open(_) => ReaderStepKeeps(s, a);
    case Load(_) => ReaderStepKeeps(s, a);
    case Parse(_) => ReaderStepKeeps(s, a);
    case Deliver(_) => ReaderStepKeeps(s, a);
    case Fill(k) =>
      var t := Apply(s, a);
      assert t.mem[..t.writePos] == s.mem[..s.writePos];
      hide ReaderInv;
    case _ =>
      hide ReaderInv;
  }

  /** What one byte store does in a good state. */
  lemma FillStep(s: State, k: nat)
    requires Inv(s) && s.writer.Filling? && k < |Encode(s.writer.e)|
    ensures Inv(Apply(s, Fill(k)))
    ensures |s.writer.done| == |Encode(s.writer.e)| && s.writePos + |Encode(s.writer.e)| <= |s.mem|
    ensures Apply(s, Fill(k)) ==
      s.(mem := s.mem[s.writePos + k := Encode(s.writer.e)[k]], writer := Filling(s.writer.e, s.writer.done[k := true]))
  {
    hide Log;
    hide Encode;
    hide HeaderBytes;
    ApplyKeeps(s, Fill(k));
  }

  /** What the release store of the write position does once the record is complete. */
  lemma PublishStep(s: State)
    requires Inv(s) && s.writer.Filling? && AllDone(s.writer.done)
    ensures Inv(Apply(s, Publish))
    ensures Apply(s, Publish) ==
      s.(writePos := s.writePos + |Encode(s.writer.e)|, written := s.written + [s.writer.e], writer := Published)
    ensures s.writePos + |Encode(s.writer.e)| <= |s.mem|
  {
    hide Log;
    hide HeaderBytes;
    PublishKeeps(s);
  }

  lemma BumpStep(s: State)
    requires Inv(s) && s.writer.Published?
    ensures Inv(Apply(s, Bump)) && Apply(s, Bump) == s.(entryCount := s.entryCount + 1, writer := Idle)
  {
    hide Log;
    hide Encode;
    hide HeaderBytes;
  }

  lemma {:induction false} RunInv(mem: seq<byte>, run: seq<Action>)
    requires forall a <- run :: FitsIfBegin(a)
    ensures Inv(Exec(Init(mem), run))
  {
    if run != [] {
      RunInv(mem, run[..|run| - 1]);
      ApplyKeeps(Exec(Init(mem), run[..|run| - 1]), run[|run| - 1]);
    }
  }

  // ---------------------------------------------------------------- main results

  /** Whatever bytes the area holds, the reader stands at or before what is published, and so does all it has found. */
  predicate Behind(x: Reader, writePos: nat) {
    && x.pos <= writePos
    && match x.phase
       case Ready => true
       case Loaded(limit) => x.pos < limit <= writePos
       case Parsed(h) => 0 < h.size && x.pos + h.size <= writePos
  }

  ghost predicate AllBehind(s: State) {
    forall r <- s.readers :: Behind(s.readers[r], s.writePos)
  }

  /** Over arbitrary bytes a step of a reader leaves it behind, and a delivery either moves it on or finds the area
      too short. */
  lemma ReaderStaysBehind(x: Reader, mem: seq<byte>, writePos: nat)
    requires Behind(x, writePos)
    ensures Behind(LoadStep(x, writePos), writePos) && Behind(ParseStep(x, mem), writePos)
    ensures Behind(DeliverStep(x, mem), writePos)
    ensures x.phase.Parsed? ==> var y := DeliverStep(x, mem); y.outOfBounds || y.pos > x.pos
  {
    hide ParseHeader;
  }

  lemma StepStaysBehind(s: State, a: Action)
    requires AllBehind(s)
    ensures AllBehind(Apply(s, a)) && s.writePos <= Apply(s, a).writePos
  {
    hide LoadStep, ParseStep, DeliverStep, Encode, HeaderBytes;
    var t := Apply(s, a);
    forall r | r in t.readers ensures Behind(t.readers[r], t.writePos) {
      if r in s.readers {
        ReaderStaysBehind(s.readers[r], s.mem, s.writePos);
      }
    }
  }

  /** So in every run over an area with arbitrary bytes no reader ever passes the write position. */
  lemma {:induction false} ReadersStayBehind(s: State, run: seq<Action>)
    requires AllBehind(s)
    ensures AllBehind(Exec(s, run)) && s.writePos <= Exec(s, run).writePos
  {
    if run != [] {
      ReadersStayBehind(s, run[..|run| - 1]);
      StepStaysBehind(Exec(s, run[..|run| - 1]), run[|run| - 1]);
      hide AllBehind, Apply;
    }
  }

  /** A header that reaches out of the area is noted, and a size that is zero or reaches past what is published is
      reported; in both cases nothing is read, and any other size is accepted. */
  lemma BadSizeIsCorrupted(s: State, r: nat)
    requires r in s.readers && s.readers[r].phase.Loaded?
    ensures var x, y := s.readers[r], Apply(s, Parse(r)).readers[r];
      && y.pos == x.pos && y.out == x.out
      && if x.pos + 64 > |s.mem| then y.outOfBounds && y.phase.Ready?
         else
           var size := GetU32(s.mem[x.pos..x.pos + 4]);
           && (y.phase.Parsed? <==> size != 0 && x.pos + size <= x.phase.limit)
           && (!y.phase.Parsed? ==> y.corrupted && y.phase.Ready?)
  {
    var x := s.readers[r];
    if x.pos + 64 <= |s.mem| {
      assert s.mem[x.pos..x.pos + 64][0..4] == s.mem[x.pos..x.pos + 4];
    }
  }

  /** After `Close` at most the record already begun is still published. */
  lemma {:induction false} ClosedPublishesNoMore(s: State, run: seq<Action>)
    requires !s.active
    ensures var t := Exec(s, run);
      && !t.active
      && (t.writer.Filling? ==> s.writer.Filling? && t.writer.e == s.writer.e && t.written == s.written)
      && (t.written == s.written || (s.writer.Filling? && t.written == s.written + [s.writer.e]))
  {
    if run != [] {
      ClosedPublishesNoMore(s, run[..|run| - 1]);
      hide Encode, HeaderBytes;
    }
  }

  /**
   Under every interleaving, what a reader has delivered is a prefix of what was published, its
   position is the boundary after those entries, no header is ever judged corrupted and no byte is
   read outside the data area.
   */
  lemma ReadersSeeAPrefix(mem: seq<byte>, run: seq<Action>, r: nat)
    requires forall a <- run :: FitsIfBegin(a)
    requires r in Exec(Init(mem), run).readers
    ensures var s := Exec(Init(mem), run); var x := s.readers[r];
      && x.out <= s.written
      && x.pos == |Log(x.out)| <= s.writePos
      && !x.corrupted && !x.outOfBounds
      && (x.pos == s.writePos <==> x.out == s.written)
  {
    RunInv(mem, run);
    var s := Exec(Init(mem), run);
    var x := s.readers[r];
    BehindIffPending(s, x);
    if |x.out| < |s.written| {
      PendingEntry(s, x);
    } else {
      assert x.out == s.written;
    }
  }

  /** The published bytes are exactly the published records, and the entry counter lags by at most one. */
  lemma PublishedBytesAreTheLog(mem: seq<byte>, run: seq<Action>)
    requires forall a <- run :: FitsIfBegin(a)
    ensures var s := Exec(Init(mem), run);
      && |s.mem| == |mem|
      && s.writePos <= |s.mem|
      && s.mem[..s.writePos] == Log(s.written)
      && s.entryCount <= |s.written| <= s.entryCount + 1
  {
    RunInv(mem, run);
    MemoryNeverResized(mem, run);
  }

  lemma {:induction false} MemoryNeverResized(mem: seq<byte>, run: seq<Action>)
    ensures |Exec(Init(mem), run).mem| == |mem|
  {
    if run != [] {
      MemoryNeverResized(mem, run[..|run| - 1]);
    }
  }

  lemma ReaderActions(s: State, r: nat)
    requires r in s.readers
    ensures var x := s.readers[r];
      Apply(Apply(Apply(s, Load(r)), Parse(r)), Deliver(r)).readers[r] ==
      DeliverStep(ParseStep(LoadStep(x, s.writePos), s.mem), s.mem)
  {
    hide LoadStep, ParseStep, DeliverStep;
  }

  lemma ReadNextSteps(s: State, x: Reader)
    requires MemoryInv(s) && ReaderInv(x, s.written) && x.phase.Ready?
    ensures DeliverStep(ParseStep(LoadStep(x, s.writePos), s.mem), s.mem).out ==
            if |x.out| < |s.written| then x.out + [s.written[|x.out|]] else x.out
  {
    BehindIffPending(s, x);
    LoadKeeps(s, x);
    var x1 := LoadStep(x, s.writePos);
    assert x1.out == x.out && (x1.phase.Loaded? <==> |x.out| < |s.written|);
    ParseKeeps(s, x1);
    var x2 := ParseStep(x1, s.mem);
    DeliverKeeps(s, x2);
    assert x2.out == x1.out;
    assert !x1.phase.Loaded? ==> x2 == x1 && DeliverStep(x2, s.mem) == x2;
  }

  /** A reader that is behind obtains exactly the next published entry from one `read_next`. */
  lemma ReadNextDeliversNext(mem: seq<byte>, run: seq<Action>, r: nat)
    requires forall a <- run :: FitsIfBegin(a)
    requires r in Exec(Init(mem), run).readers && Exec(Init(mem), run).readers[r].phase.Ready?
    ensures var s := Exec(Init(mem), run); var x := s.readers[r];
      var y := Apply(Apply(Apply(s, Load(r)), Parse(r)), Deliver(r)).readers[r];
      y.out == if |x.out| < |s.written| then x.out + [s.written[|x.out|]] else x.out
  {
    RunInv(mem, run);
    var s := Exec(Init(mem), run);
    assert ReaderInv(s.readers[r], s.written);
    ReadNextSteps(s, s.readers[r]);
    ReaderActions(s, r);
    hide *;
  }
}
