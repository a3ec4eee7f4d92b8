/** The ring buffer's writer and reader objects, over a real byte array. */
module RingBuffer {
  import opened Bytes
  import opened EntryCodec
  import opened Wrappers
  import P = RingProtocol

  datatype RingError = NotActive | BufferFull | CorruptedEntry

  /** `after` is `before` with `bytes` stored at `pos`. */
  ghost predicate Stored(before: seq<byte>, after: seq<byte>, pos: nat, bytes: seq<byte>) {
    && |after| == |before|
    && forall j :: 0 <= j < |before| ==> after[j] == if pos <= j < pos + |bytes| then bytes[j - pos] else before[j]
  }

  lemma StoredAt(before: seq<byte>, after: seq<byte>, pos: nat, bytes: seq<byte>)
    requires |after| == |before|
    requires forall j :: 0 <= j < |before| ==> after[j] == if pos <= j < pos + |bytes| then bytes[j - pos] else before[j]
    ensures Stored(before, after, pos, bytes)
  {
  }

  /** `RingBufferWriter`.  The ghost `proto` runs the step-by-step protocol alongside the stores. */
  class Writer {
    const mem: array<byte>
    var writePos: nat
    var entryCount: nat
    var active: bool
    ghost var proto: P.State

    ghost predicate Mirrors()
      reads this, mem
    {
      && proto.mem == mem[..]
      && proto.writePos == writePos && proto.entryCount == entryCount && proto.active == active
    }

    ghost predicate Valid()
      reads this, mem
    {
      Mirrors() && P.Inv(proto) && proto.writer.Idle?
    }

    ghost function Written(): seq<Entry>
      reads this
    {
      proto.written
    }

    constructor (capacity: nat)
      ensures Valid() && fresh(mem) && mem.Length == capacity
      ensures Written() == [] && writePos == 0 && entryCount == 0 && active
    {
      mem := new byte[capacity];
      writePos, entryCount, active := 0, 0, true;
      new;
      proto := P.Init(mem[..]);
    }

    /** Appends one record, or reports why it cannot and changes nothing. */
    method Write(slot: u64, version: u64, key: Pubkey, data: seq<byte>) returns (r: Result<nat, RingError>)
      requires Valid() && Fits(Entry(slot, version, key, data))
      modifies this, mem
      ensures Valid() && active == old(active)
      ensures var e := Entry(slot, version, key, data);
        if !old(active) then
          r == Err(NotActive) && Written() == old(Written()) && mem[..] == old(mem[..])
        else if old(writePos) + |Encode(e)| > mem.Length then
          r == Err(BufferFull) && Written() == old(Written()) && mem[..] == old(mem[..])
        else
          && r == Ok(old(writePos))
          && Written() == old(Written()) + [e]
          && writePos == old(writePos) + |Encode(e)|
          && entryCount == old(entryCount) + 1
          && Stored(old(mem[..]), mem[..], old(writePos), Encode(e))
    {
      if !active {
        return Err(NotActive);
      }
      var e := Entry(slot, version, key, data);
      var newPos := writePos + EntrySize(e);
      if newPos > mem.Length {
        return Err(BufferFull);
      }
      hide *;
      r := Ok(writePos);
      WriteRecord(e, newPos);
    }

    /** Stores the record, then publishes it, then counts it. */
    method WriteRecord(e: Entry, newPos: nat)
      requires Valid() && active && Fits(e) && writePos + |Encode(e)| == newPos <= mem.Length
      modifies this, mem
      ensures Valid() && active == old(active)
      ensures Written() == old(Written()) + [e] && writePos == newPos && entryCount == old(entryCount) + 1
      ensures Stored(old(mem[..]), mem[..], old(writePos), Encode(e))
    {
      hide Log, Encode, HeaderBytes, P.Inv, P.Apply, P.WriterStep, Stored;
      FillRecord(e);
      P.PublishStep(proto);
      proto := P.Apply(proto, P.Publish);
      writePos := newPos;
      P.BumpStep(proto);
      proto := P.Apply(proto, P.Bump);
      entryCount := entryCount + 1;
    }

    /** Stores the record bytes beyond the published prefix, one protocol step per byte. */
    method FillRecord(e: Entry)
      requires Valid() && active && Fits(e) && writePos + |Encode(e)| <= mem.Length
      modifies mem, `proto
      ensures Mirrors() && P.Inv(proto)
      ensures proto.writer.Filling? && proto.writer.e == e && P.AllDone(proto.writer.done)
      ensures Written() == old(Written())
      ensures Stored(old(mem[..]), mem[..], writePos, Encode(e))
    {
      hide Stored;
      hide Log;
      hide Encode;
      hide HeaderBytes;
      P.ApplyKeeps(proto, P.Begin(e));
      proto := P.Apply(proto, P.Begin(e));
      StoreBytes(e);
    }

    method StoreBytes(e: Entry)
      requires P.Inv(proto) && proto.mem == mem[..] && proto.writePos == writePos
      requires proto.writer.Filling? && proto.writer.e == e && |proto.writer.done| == |Encode(e)|
      requires writePos + |Encode(e)| <= mem.Length
      modifies mem, `proto
      ensures P.Inv(proto) && proto == old(proto).(mem := mem[..], writer := proto.writer)
      ensures proto.writer.Filling? && proto.writer.e == e
      ensures |proto.writer.done| == |Encode(e)| && forall j :: 0 <= j < |Encode(e)| ==> proto.writer.done[j]
      ensures Stored(old(mem[..]), mem[..], writePos, Encode(e))
    {
      hide *;
      var bytes := Encode(e);
      ghost var s0 := proto;
      for k := 0 to |bytes|
        invariant P.Inv(proto) && proto == s0.(mem := mem[..], writer := proto.writer)
        invariant proto.writer.Filling? && proto.writer.e == e
        invariant |proto.writer.done| == |bytes|
        invariant forall j :: 0 <= j < k ==> proto.writer.done[j]
        invariant forall j :: 0 <= j < mem.Length ==>
          mem[j] == if writePos <= j < writePos + k then bytes[j - writePos] else old(mem[j])
      {
        P.FillStep(proto, k);
        proto := P.Apply(proto, P.Fill(k));
        mem[writePos + k] := bytes[k];
      }
      StoredAt(old(mem[..]), mem[..], writePos, bytes);
    }

    /** Stops the buffer: every later write is refused. */
    method Close()
      requires Valid()
      modifies this
      ensures Valid() && !active && Written() == old(Written()) && writePos == old(writePos)
    {
      active := false;
      proto := P.Apply(proto, P.Close);
    }
  }

  lemma HeaderFields(mem: seq<byte>, pos: nat)
    requires pos + 64 <= |mem|
    ensures ParseHeader(mem[pos..pos + 64]) ==
      Header(GetU32(mem[pos..pos + 4]), GetU64(mem[pos + 8..pos + 16]), GetU64(mem[pos + 16..pos + 24]),
             mem[pos + 24..pos + 56], GetU32(mem[pos + 56..pos + 60]))
  {
    hide GetU32, GetU64;
    Subslice(mem, pos, 0, 4);
    Subslice(mem, pos, 8, 16);
    Subslice(mem, pos, 16, 24);
    Subslice(mem, pos, 24, 56);
    Subslice(mem, pos, 56, 60);
  }

  lemma Subslice(mem: seq<byte>, pos: nat, i: nat, j: nat)
    requires i <= j <= 64 && pos + 64 <= |mem|
    ensures mem[pos..pos + 64][i..j] == mem[pos + i..pos + j]
  {
    var frame := mem[pos..pos + 64];
    var f, g := frame[i..j], mem[pos + i..pos + j];
    forall k | 0 <= k < j - i ensures f[k] == g[k] {
      assert f[k] == frame[i + k];
    }
  }

  /** What the record at a reader's position says, field by field. */
  lemma NextFields(s: P.State, pos: nat, taken: nat)
    requires P.Inv(s) && taken < |s.written| && pos == |Log(s.written[..taken])|
    ensures var e := s.written[taken];
      && pos + 64 + |e.data| == |Log(s.written[..taken + 1])| <= s.writePos <= |s.mem|
      && GetU32(s.mem[pos..pos + 4]) == 64 + |e.data| && GetU32(s.mem[pos + 56..pos + 60]) == |e.data|
      && GetU64(s.mem[pos + 8..pos + 16]) == e.slot && GetU64(s.mem[pos + 16..pos + 24]) == e.version
      && s.mem[pos + 24..pos + 56] == e.key && s.mem[pos + 64..pos + 64 + |e.data|] == e.data
  {
    hide P.Inv, Log, ParseHeader, GetU32, GetU64;
    P.NextFrame(s, pos, taken);
    HeaderFields(s.mem, pos);
  }

  lemma Slices(mem: array<byte>, pos: nat)
    requires pos + 64 <= mem.Length
    ensures forall i, j :: 0 <= i <= j <= mem.Length ==> mem[..][i..j] == mem[i..j]
  {
  }

  /** `RingBufferReader`.  The ghost `taken` counts the entries already returned. */
  class Reader {
    const ring: Writer
    var readPos: nat
    ghost var taken: nat

    ghost predicate Valid()
      reads this, ring, ring.mem
    {
      && ring.Valid()
      && taken <= |ring.Written()|
      && readPos == |Log(ring.Written()[..taken])|
    }

    constructor (ring: Writer)
      requires ring.Valid()
      ensures Valid() && this.ring == ring && readPos == 0 && taken == 0
    {
      this.ring := ring;
      readPos, taken := 0, 0;
      new;
      assert ring.Written()[..0] == [];
    }

    /** Returns the next published entry, and `None` exactly when all have been returned. */
    method ReadNext() returns (r: Result<Option<Entry>, RingError>)
      requires Valid()
      modifies this
      ensures Valid()
      ensures old(taken) < |ring.Written()| ==>
        taken == old(taken) + 1 && r == Ok(Some(ring.Written()[old(taken)]))
      ensures old(taken) == |ring.Written()| ==> taken == old(taken) && readPos == old(readPos) && r == Ok(None)
    {
      hide Log, P.Inv, GetU32, GetU64;
      P.NextFrame(ring.proto, readPos, taken);
      var writePos := ring.writePos;
      if readPos >= writePos {
        return Ok(None);
      }
      NextFields(ring.proto, readPos, taken);
      Slices(ring.mem, readPos);
      r := ReadFrame(writePos);
      taken := taken + 1;
    }

    /** Reads the record at the reader's position, whatever bytes are there: a size of zero, or one that reaches past
        `limit`, is reported, and any other steps over the record. */
    method ReadFrame(limit: nat) returns (r: Result<Option<Entry>, RingError>)
      requires readPos + 64 <= ring.mem.Length
      requires readPos + 64 + GetU32(ring.mem[readPos + 56..readPos + 60]) <= ring.mem.Length
      modifies this`readPos
      ensures var pos, mem := old(readPos), ring.mem;
        var size, dataLen := GetU32(mem[pos..pos + 4]), GetU32(mem[pos + 56..pos + 60]);
        if size == 0 || pos + size > limit then
          r == Err(CorruptedEntry) && readPos == pos
        else
          && readPos == pos + size
          && r == Ok(Some(Entry(GetU64(mem[pos + 8..pos + 16]), GetU64(mem[pos + 16..pos + 24]), mem[pos + 24..pos + 56],
                                mem[pos + 64..pos + 64 + dataLen])))
    {
      var mem := ring.mem;
      HeaderFields(mem[..], readPos);
      Slices(mem, readPos);
      hide GetU32, GetU64, ParseHeader;
      var h := ParseHeader(mem[readPos..readPos + HEADER_SIZE]);
      if h.size == 0 || readPos + h.size > limit {
        return Err(CorruptedEntry);
      }
      var data := mem[readPos + HEADER_SIZE..readPos + HEADER_SIZE + h.dataLen];
      r := Ok(Some(Entry(h.slot, h.version, h.key, data)));
      readPos := readPos + h.size;
    }
  }
}
