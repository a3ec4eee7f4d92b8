/** The append-only delta segment file: a 48-byte header followed by records laid end to end. */
module SegmentWriter {
  import opened Bytes
  import opened EntryCodec
  import opened Wrappers

  const MAGIC: u32 := 0x5345474D
  const VERSION: u32 := 1
  const HEADER: nat := 48

  datatype SegmentHeader = SegmentHeader(
    magic: u32, version: u32, startSlot: u64, endSlot: u64, entryCount: u64, dataSize: u64, checksum: u32)

  datatype SegmentInfo = SegmentInfo(startSlot: u64, endSlot: u64, entryCount: u64, dataSize: u64)

  datatype SegmentError = ShortFile | InvalidMagic(magic: u32) | UnsupportedVersion(version: u32)

  function StructBytes(h: SegmentHeader): (s: seq<byte>)
    ensures |s| == HEADER
  {
    U32Bytes(h.magic) + U32Bytes(h.version) + U64Bytes(h.startSlot) + U64Bytes(h.endSlot)
    + U64Bytes(h.entryCount) + U64Bytes(h.dataSize) + U32Bytes(h.checksum) + Zeros(4)
  }

  function ParseStruct(s: seq<byte>): SegmentHeader
    requires |s| == HEADER
  {
    SegmentHeader(GetU32(s[0..4]), GetU32(s[4..8]), GetU64(s[8..16]), GetU64(s[16..24]),
                  GetU64(s[24..32]), GetU64(s[32..40]), GetU32(s[40..44]))
  }

  lemma ParseStructBytes(h: SegmentHeader)
    ensures ParseStruct(StructBytes(h)) == h
  {
    var s := StructBytes(h);
    assert s[0..4] == U32Bytes(h.magic) && s[4..8] == U32Bytes(h.version);
    assert s[8..16] == U64Bytes(h.startSlot) && s[16..24] == U64Bytes(h.endSlot);
    assert s[24..32] == U64Bytes(h.entryCount) && s[32..40] == U64Bytes(h.dataSize);
    assert s[40..44] == U32Bytes(h.checksum);
    GetPut32(h.magic);
    GetPut32(h.version);
    GetPut64(h.startSlot);
    GetPut64(h.endSlot);
    GetPut64(h.entryCount);
    GetPut64(h.dataSize);
    GetPut32(h.checksum);
  }

  /** Where each field of the header lies. */
  lemma HeaderLayout(h: SegmentHeader)
    ensures var s := StructBytes(h);
      && |s| == 48 && GetU32(s[0..4]) == h.magic && GetU32(s[4..8]) == h.version
      && GetU64(s[8..16]) == h.startSlot && GetU64(s[16..24]) == h.endSlot
      && GetU64(s[24..32]) == h.entryCount && GetU64(s[32..40]) == h.dataSize && GetU32(s[40..44]) == h.checksum
  {
    var s := StructBytes(h);
    assert s[0..4] == U32Bytes(h.magic) && s[4..8] == U32Bytes(h.version);
    assert s[8..16] == U64Bytes(h.startSlot) && s[16..24] == U64Bytes(h.endSlot);
    assert s[24..32] == U64Bytes(h.entryCount) && s[32..40] == U64Bytes(h.dataSize);
    assert s[40..44] == U32Bytes(h.checksum);
    hide StructBytes;
    GetPut32(h.magic);
    GetPut32(h.version);
    GetPut64(h.startSlot);
    GetPut64(h.endSlot);
    GetPut64(h.entryCount);
    GetPut64(h.dataSize);
    GetPut32(h.checksum);
  }

  /** `SegmentReader::open` followed by `info`.  The stored checksum is not compared. */
  function ReadInfo(file: seq<byte>): Result<SegmentInfo, SegmentError> {
    if |file| < HEADER then Err(ShortFile)
    else
      var h := ParseStruct(file[..HEADER]);
      if h.magic != MAGIC then Err(InvalidMagic(h.magic))
      else if h.version != VERSION then Err(UnsupportedVersion(h.version))
      else Ok(SegmentInfo(h.startSlot, h.endSlot, h.entryCount, h.dataSize))
  }

  /** Opening succeeds exactly on 48 bytes or more that start with the magic number and version 1, and reports the
      slots and totals at their places; otherwise it names the first thing wrong. */
  lemma OpensExactly(file: seq<byte>)
    ensures var r := ReadInfo(file);
      if |file| < 48 then r == Err(ShortFile)
      else if GetU32(file[0..4]) != 0x5345474D then r == Err(InvalidMagic(GetU32(file[0..4])))
      else if GetU32(file[4..8]) != 1 then r == Err(UnsupportedVersion(GetU32(file[4..8])))
      else r == Ok(SegmentInfo(GetU64(file[8..16]), GetU64(file[16..24]), GetU64(file[24..32]), GetU64(file[32..40])))
  {
    if |file| >= 48 {
      assert forall i, j :: 0 <= i <= j <= 48 ==> file[..48][i..j] == file[i..j];
    }
    hide GetU32, GetU64;
  }

  function MaxSlot(es: seq<Entry>): u64 {
    if es == [] then 0
    else
      var m := MaxSlot(es[..|es| - 1]);
      var slot := es[|es| - 1].slot;
      if slot > m then slot else m
  }

  /** `MaxSlot` is the least upper bound of the slots. */
  lemma {:induction false} MaxSlotIsMaximum(es: seq<Entry>)
    ensures forall e <- es :: e.slot <= MaxSlot(es)
    ensures es != [] ==> exists e <- es :: e.slot == MaxSlot(es)
  {
    if es != [] {
      var front, last := es[..|es| - 1], es[|es| - 1];
      MaxSlotIsMaximum(front);
      assert front == [] ==> MaxSlot(front) == 0;
      assert MaxSlot(es) == if last.slot > MaxSlot(front) then last.slot else MaxSlot(front);
      hide MaxSlot;
      assert es == front + [last];
      assert last in es && forall e <- front :: e in es;
      if front != [] && last.slot <= MaxSlot(front) {
        var e :| e in front && e.slot == MaxSlot(front);
        assert e in es;
      } else {
        assert last.slot == MaxSlot(es);
      }
    }
  }

  lemma MaxSlotSnoc(es: seq<Entry>, e: Entry)
    ensures MaxSlot(es + [e]) == if e.slot > MaxSlot(es) then e.slot else MaxSlot(es)
  {
    assert (es + [e])[..|es|] == es;
  }

  /** `write_all` at a file position: overwrites, and extends the file when needed. */
  function WriteAt(file: seq<byte>, pos: nat, bytes: seq<byte>): seq<byte>
    requires pos <= |file|
  {
    file[..pos] + bytes + if pos + |bytes| <= |file| then file[pos + |bytes|..] else []
  }

  lemma WriteAtEnd(file: seq<byte>, bytes: seq<byte>)
    ensures WriteAt(file, |file|, bytes) == file + bytes
  {
  }

  /** The segment totals stay within the header's 64-bit fields. */
  predicate InRange(es: seq<Entry>) {
    |es| < U64_RANGE && |Log(es)| < U64_RANGE
  }

  lemma InRangePrefix(es: seq<Entry>, n: nat)
    requires n <= |es| && InRange(es)
    ensures InRange(es[..n])
  {
    if n < |es| {
      LogAt(es, n);
    } else {
      assert es[..n] == es;
    }
  }

  class Writer {
    var file: seq<byte>
    var cursor: nat
    var header: SegmentHeader
    var currentPos: nat
    const crc32: seq<byte> -> u32
    ghost var entries: seq<Entry>

    ghost predicate Valid()
      reads this
    {
      && HEADER <= |file| == cursor == currentPos
      && file[HEADER..] == Log(entries)
      && header.magic == MAGIC && header.version == VERSION
      && header.entryCount == |entries| && header.dataSize == |Log(entries)|
      && header.endSlot == MaxSlot(entries)
    }

    constructor (startSlot: u64, crc32: seq<byte> -> u32)
      ensures Valid() && entries == [] && header.startSlot == startSlot && this.crc32 == crc32
      ensures file == StructBytes(header)
      ensures header.checksum == crc32(StructBytes(SegmentHeader(0x5345474D, 1, startSlot, 0, 0, 0, 0))[..44])
    {
      hide StructBytes, HeaderBytes, Encode;
      this.crc32 := crc32;
      var h := SegmentHeader(MAGIC, VERSION, startSlot, 0, 0, 0, 0);
      h := h.(checksum := crc32(StructBytes(h)[..HEADER - 4]));
      header := h;
      file := WriteAt([], 0, StructBytes(h));
      cursor, currentPos := HEADER, HEADER;
      entries := [];
    }

    /** Appends one record and returns the file offset where it starts. */
    method Append(e: Entry) returns (offset: nat)
      requires Valid() && Fits(e) && InRange(entries + [e])
      modifies this
      ensures Valid() && entries == old(entries) + [e] && header.startSlot == old(header.startSlot)
      ensures offset == HEADER + |Log(old(entries))| && file == old(file) + Encode(e)
    {
      LogSnoc(entries, e);
      MaxSlotSnoc(entries, e);
      WriteAtEnd(file, Encode(e));
      hide HeaderBytes, Encode, Log, MaxSlot, WriteAt;
      offset := currentPos;
      var size := EntrySize(e);
      file := WriteAt(file, cursor, Encode(e));
      cursor := cursor + |Encode(e)|;
      currentPos := currentPos + size;
      header := header.(entryCount := header.entryCount + 1, dataSize := header.dataSize + size,
                        endSlot := if e.slot > header.endSlot then e.slot else header.endSlot);
      entries := entries + [e];
    }

    /** Rewrites the header in place; the finished file reads back as what was appended. */
    method Finalize() returns (info: SegmentInfo)
      requires Valid()
      modifies this
      ensures entries == old(entries) && |file| == old(|file|) >= HEADER && file[HEADER..] == Log(entries)
      ensures info == SegmentInfo(old(header.startSlot), MaxSlot(entries), |entries|, |Log(entries)|)
      ensures ReadInfo(file) == Ok(info)
      ensures GetU32(file[0..4]) == 0x5345474D && GetU32(file[4..8]) == 1
      ensures GetU64(file[8..16]) == old(header.startSlot) && GetU64(file[16..24]) == MaxSlot(entries)
      ensures GetU64(file[24..32]) == |entries| && GetU64(file[32..40]) == |Log(entries)|
      ensures GetU32(file[40..44]) == crc32(StructBytes(old(header))[..44])
    {
      hide HeaderBytes;
      hide Log;
      hide MaxSlot;
      // The checksummed range still holds the previous checksum.
      header := header.(checksum := crc32(StructBytes(header)[..HEADER - 4]));
      file := WriteAt(file, 0, StructBytes(header));
      cursor := HEADER;
      ParseStructBytes(header);
      HeaderLayout(header);
      assert file[..HEADER] == StructBytes(header);
      assert forall i, j :: 0 <= i <= j <= HEADER ==> file[..HEADER][i..j] == file[i..j];
      info := SegmentInfo(header.startSlot, header.endSlot, header.entryCount, header.dataSize);
    }
  }
}
