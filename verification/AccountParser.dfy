/** The stored account record: parsing, alignment, and the matching encoder. */
module AccountParser {
  import opened Bytes
  import opened Wrappers
  import opened Location

  /** The file bytes; their number fits the 64-bit offsets. */
  type File = s: seq<byte> | |s| < U64_RANGE witness []

  /** Bytes before the account data: stored size, two addresses, flag, three counters. */
  const META: nat := 97

  datatype ParseError = InvalidStoredSize(size: nat) | MetadataOverflow

  datatype Parsed = Parsed(
    pubkey: Pubkey, owner: Pubkey, lamports: u64, executable: bool, rentEpoch: u64, slot: u64,
    writeVersion: u64, data: seq<byte>, location: AccountLocation)

  /** `parse_account_record`. */
  function Parse(fileId: u64, offset: u64, bytes: seq<byte>): Result<Parsed, ParseError> {
    if |bytes| < 8 then Err(MetadataOverflow)
    else
      var stored := GetU64(bytes[0..8]);
      if stored > |bytes| then Err(InvalidStoredSize(stored))
      else if |bytes| < META then Err(MetadataOverflow)
      else
        var slot := GetU64(bytes[89..97]);
        var data := bytes[META..];
        Ok(Parsed(
          bytes[8..40], bytes[40..72], GetU64(bytes[81..89]), bytes[72] != 0, GetU64(bytes[73..81]), slot, 0, data,
          AccountLocation(fileId, offset, TruncU32(stored), META, TruncU32(|data|), slot, 0, Base)))
  }

  function AlignTo8(x: nat): (y: nat)
    ensures x <= y < x + 8 && y % 8 == 0
  {
    (x + 7) / 8 * 8
  }

  function PaddingNeeded(size: nat, alignment: nat): (p: nat)
    requires alignment > 0
    ensures p < alignment
  {
    var remainder := size % alignment;
    if remainder == 0 then 0 else alignment - remainder
  }

  /** Padding by `padding_needed` and stepping by `align_to_8` agree. */
  lemma PaddingIsAlignment(size: nat)
    ensures size + PaddingNeeded(size, 8) == AlignTo8(size)
  {
  }

  // ---------------------------------------------------------------- the encoder

  datatype Record = Record(
    pubkey: Pubkey, owner: Pubkey, executable: bool, rentEpoch: u64, lamports: u64, slot: u64, data: seq<byte>)

  function RecordSize(r: Record): nat {
    META + |r.data|
  }

  function EncodeRecord(r: Record): (s: seq<byte>)
    requires RecordSize(r) < U64_RANGE
    ensures |s| == RecordSize(r)
  {
    U64Bytes(RecordSize(r)) + r.pubkey + r.owner + [if r.executable then 1 else 0]
    + U64Bytes(r.rentEpoch) + U64Bytes(r.lamports) + U64Bytes(r.slot) + r.data
  }

  /** What parsing record `r` stored at `offset` must give. */
  function ParsedFrom(fileId: u64, offset: u64, r: Record): Parsed {
    Parsed(r.pubkey, r.owner, r.lamports, r.executable, r.rentEpoch, r.slot, 0, r.data,
           AccountLocation(fileId, offset, TruncU32(RecordSize(r)), META, TruncU32(|r.data|), r.slot, 0, Base))
  }

  lemma StoredSizeOf(r: Record)
    requires RecordSize(r) < U64_RANGE
    ensures GetU64(EncodeRecord(r)[0..8]) == RecordSize(r)
  {
    assert EncodeRecord(r)[0..8] == U64Bytes(RecordSize(r));
    GetPut64(RecordSize(r));
  }

  /** Where each field of a stored record lies. */
  lemma RecordLayout(r: Record)
    requires RecordSize(r) < U64_RANGE
    ensures var s := EncodeRecord(r);
      && |s| == 97 + |r.data| && GetU64(s[0..8]) == |s| && s[8..40] == r.pubkey && s[40..72] == r.owner
      && (s[72] != 0 <==> r.executable) && GetU64(s[73..81]) == r.rentEpoch && GetU64(s[81..89]) == r.lamports
      && GetU64(s[89..97]) == r.slot && s[97..] == r.data
  {
    var s := EncodeRecord(r);
    StoredSizeOf(r);
    assert s[8..40] == r.pubkey && s[40..72] == r.owner && s[72] == if r.executable then 1 else 0;
    assert s[73..81] == U64Bytes(r.rentEpoch) && s[81..89] == U64Bytes(r.lamports);
    assert s[89..97] == U64Bytes(r.slot) && s[97..] == r.data;
    hide EncodeRecord;
    GetPut64(r.rentEpoch);
    GetPut64(r.lamports);
    GetPut64(r.slot);
  }

  /** Parsing undoes encoding. */
  lemma ParseEncoded(fileId: u64, offset: u64, r: Record)
    requires RecordSize(r) < U64_RANGE
    ensures Parse(fileId, offset, EncodeRecord(r)) == Ok(ParsedFrom(fileId, offset, r))
    ensures ParsedFrom(fileId, offset, r) ==
      Parsed(r.pubkey, r.owner, r.lamports, r.executable, r.rentEpoch, r.slot, 0, r.data,
             AccountLocation(fileId, offset, (97 + |r.data|) % 0x1_0000_0000, 97, |r.data| % 0x1_0000_0000, r.slot, 0, Base))
  {
    var s := EncodeRecord(r);
    StoredSizeOf(r);
    assert s[8..40] == r.pubkey && s[40..72] == r.owner && s[72] == if r.executable then 1 else 0;
    assert s[73..81] == U64Bytes(r.rentEpoch) && s[81..89] == U64Bytes(r.lamports);
    assert s[89..97] == U64Bytes(r.slot) && s[META..] == r.data;
    GetPut64(r.rentEpoch);
    GetPut64(r.lamports);
    GetPut64(r.slot);
  }

  /** A record parses exactly when it has all its metadata and does not claim more bytes than it has. */
  lemma ParsesWhen(fileId: u64, offset: u64, bytes: seq<byte>)
    ensures Parse(fileId, offset, bytes).Ok? <==> |bytes| >= META && GetU64(bytes[0..8]) <= |bytes|
    ensures Parse(fileId, offset, bytes).Err? ==>
      Parse(fileId, offset, bytes).error ==
        if |bytes| >= 8 && GetU64(bytes[0..8]) > |bytes| then InvalidStoredSize(GetU64(bytes[0..8])) else MetadataOverflow
    ensures Parse(fileId, offset, bytes).Ok? ==>
      var a := Parse(fileId, offset, bytes).value;
      a.data == bytes[META..] && a.location.fileId == fileId && a.location.offset == offset
  {
  }
}
