/** Scanning an account file, and reading the located accounts back out of it. */
module AccountFile {
  import opened Bytes
  import opened Wrappers
  import opened Location
  import opened AccountParser

  const FILE_HEADER: nat := 8

  function HeaderSize(hasHeader: bool): nat {
    if hasHeader then FILE_HEADER else 0
  }

  /** The stored size read at `offset`. */
  function StoredSize(bytes: File, offset: nat): u64
    requires offset + 8 <= |bytes|
  {
    GetU64(bytes[offset..offset + 8])
  }

  /** The scan ends: too few bytes for a size, a zero size, or a size beyond the end of the file. */
  predicate Ends(bytes: File, offset: nat) {
    offset + 8 > |bytes| || StoredSize(bytes, offset) == 0 || StoredSize(bytes, offset) > |bytes| - offset
  }

  /** The bytes of the record at `offset`. */
  function RecordAt(bytes: File, offset: nat): seq<byte>
    requires !Ends(bytes, offset)
  {
    bytes[offset..offset + StoredSize(bytes, offset)]
  }

  function Next(bytes: File, offset: nat): (n: nat)
    requires !Ends(bytes, offset)
    ensures offset < n
  {
    offset + AlignTo8(StoredSize(bytes, offset))
  }

  lemma NextAligned(bytes: File, offset: nat)
    requires !Ends(bytes, offset) && offset % 8 == 0
    ensures Next(bytes, offset) % 8 == 0
  {
    hide StoredSize;
    hide AlignTo8;
    MultiplesAdd(offset, AlignTo8(StoredSize(bytes, offset)));
  }

  lemma MultiplesAdd(a: nat, b: nat)
    requires a % 8 == 0 && b % 8 == 0
    ensures (a + b) % 8 == 0
  {
  }

  /** One record's contribution to the scan: an unparsable one gives nothing. */
  function Found(fileId: u64, offset: u64, record: seq<byte>): seq<Parsed> {
    match Parse(fileId, offset, record)
    case Ok(a) => [a]
    case Err(_) => []
  }

  /** The accounts found from `offset` on. */
  function ScanFrom(fileId: u64, bytes: File, offset: nat): seq<Parsed>
    decreases |bytes| - offset
  {
    if Ends(bytes, offset) then []
    else Found(fileId, offset, RecordAt(bytes, offset)) + ScanFrom(fileId, bytes, Next(bytes, offset))
  }

  /** `scan_file`: the result vector only ever holds successes. */
  method ScanFile(hasHeader: bool, fileId: u64, bytes: File) returns (accounts: seq<Parsed>)
    ensures accounts == ScanFrom(fileId, bytes, if hasHeader then 8 else 0)
  {
    hide Parse, RecordAt, Next, StoredSize, ScanFrom, Found;
    accounts := [];
    var offset := HeaderSize(hasHeader);
    ghost var start := offset;
    while offset < |bytes|
      invariant accounts + ScanFrom(fileId, bytes, offset) == ScanFrom(fileId, bytes, start)
      decreases |bytes| - offset
    {
      if offset + 8 > |bytes| {
        break;
      }
      var stored := StoredSize(bytes, offset);
      if stored == 0 || stored > |bytes| - offset {
        break;
      }
      ScanStep(fileId, bytes, offset, accounts);
      FoundIs(fileId, offset, RecordAt(bytes, offset));
      match Parse(fileId, offset, RecordAt(bytes, offset)) {
        case Ok(a) => accounts := accounts + [a];
        case Err(_) => accounts := accounts + [];
      }
      offset := Next(bytes, offset);
    }
    ScanEnds(fileId, bytes, offset);
    assert accounts + [] == accounts;
  }

  lemma ScanStep(fileId: u64, bytes: File, offset: nat, sofar: seq<Parsed>)
    requires !Ends(bytes, offset)
    ensures sofar + ScanFrom(fileId, bytes, offset) ==
            sofar + Found(fileId, offset, RecordAt(bytes, offset)) + ScanFrom(fileId, bytes, Next(bytes, offset))
  {
    hide Found, RecordAt, Next;
  }

  lemma ScanEnds(fileId: u64, bytes: File, offset: nat)
    requires Ends(bytes, offset)
    ensures ScanFrom(fileId, bytes, offset) == []
  {
  }

  lemma FoundIs(fileId: u64, offset: u64, record: seq<byte>)
    ensures Found(fileId, offset, record) ==
            match Parse(fileId, offset, record) { case Ok(a) => [a] case Err(_) => [] }
  {
    hide Parse;
  }

  // ---------------------------------------------------------------- what a scan yields

  function RecordLength(a: Parsed): nat {
    META + |a.data|
  }

  /** Account `a` is stored in `bytes` where its location says, and re-parses to itself. */
  predicate StoredAt(fileId: u64, bytes: File, a: Parsed) {
    var start, len := a.location.offset, RecordLength(a);
    && start + len <= |bytes|
    && a.location == AccountLocation(fileId, start, TruncU32(len), META, TruncU32(|a.data|), a.slot, 0, Base)
    && bytes[start + META..start + len] == a.data
    && Parse(fileId, start, bytes[start..start + len]) == Ok(a)
  }

  predicate OrderedFrom(accounts: seq<Parsed>, from: nat) {
    && (forall a <- accounts :: from <= a.location.offset)
    && (forall i, j :: 0 <= i < j < |accounts| ==>
          accounts[i].location.offset + RecordLength(accounts[i]) <= accounts[j].location.offset)
  }

  /**
   Every scanned account is stored in bounds at its location, which is aligned to 8 bytes when the
   scan starts aligned; locations ascend and their byte ranges do not overlap.
   */
  lemma {:induction false} ScanIsSound(fileId: u64, bytes: File, offset: nat)
    ensures var accounts := ScanFrom(fileId, bytes, offset);
      && OrderedFrom(accounts, offset)
      && (forall a <- accounts :: StoredAt(fileId, bytes, a))
      && (offset % 8 == 0 ==> forall a <- accounts :: a.location.offset % 8 == 0)
    decreases |bytes| - offset
  {
    hide StoredAt;
    hide Parse;
    hide RecordAt;
    hide Next;
    hide OrderedFrom;
    if Ends(bytes, offset) {
      OrderedNil(offset);
    } else {
      var next := Next(bytes, offset);
      var rest := ScanFrom(fileId, bytes, next);
      var parsed := Parse(fileId, offset, RecordAt(bytes, offset));
      assert ScanFrom(fileId, bytes, offset) == if parsed.Ok? then [parsed.value] + rest else rest;
      ScanIsSound(fileId, bytes, next);
      RecordIsStored(fileId, bytes, offset);
      if offset % 8 == 0 {
        NextAligned(bytes, offset);
      }
      if Parse(fileId, offset, RecordAt(bytes, offset)).Ok? {
        OrderedCons(Parse(fileId, offset, RecordAt(bytes, offset)).value, rest, offset, next);
      }
      OrderedEarlier(rest, offset, next);
    }
  }

  lemma OrderedNil(from: nat)
    ensures OrderedFrom([], from)
  {
  }

  lemma OrderedCons(a: Parsed, rest: seq<Parsed>, offset: nat, next: nat)
    requires OrderedFrom(rest, next) && a.location.offset == offset && offset + RecordLength(a) <= next
    ensures OrderedFrom([a] + rest, offset)
  {
    forall i, j | 0 <= i < j < |[a] + rest|
      ensures ([a] + rest)[i].location.offset + RecordLength(([a] + rest)[i]) <= ([a] + rest)[j].location.offset
    {
      assert rest[j - 1] in rest;
    }
  }

  lemma OrderedEarlier(rest: seq<Parsed>, offset: nat, next: nat)
    requires OrderedFrom(rest, next) && offset <= next
    ensures OrderedFrom(rest, offset)
  {
  }

  lemma RecordIsStored(fileId: u64, bytes: File, offset: nat)
    requires !Ends(bytes, offset)
    ensures Parse(fileId, offset, RecordAt(bytes, offset)).Ok? ==>
      var a := Parse(fileId, offset, RecordAt(bytes, offset)).value;
      && a.location.offset == offset && offset + RecordLength(a) <= Next(bytes, offset) && StoredAt(fileId, bytes, a)
      && AccountAt(fileId, a.location.offset, bytes) == Some(Ok(a))
  {
    var stored := StoredSize(bytes, offset);
    var record := RecordAt(bytes, offset);
    ParsesWhen(fileId, offset, record);
    if Parse(fileId, offset, record).Ok? {
      assert record[0..8] == bytes[offset..offset + 8];
      assert record[META..] == bytes[offset + META..offset + stored];
    }
  }

  /** A scan goes on behind every record it can step over, at the next multiple of eight, whether or not the record
      holds an account; a record of fewer than 97 bytes holds none. */
  lemma ScanGoesOn(fileId: u64, bytes: File, offset: nat)
    requires offset + 8 <= |bytes| && 0 < GetU64(bytes[offset..offset + 8]) <= |bytes| - offset
    ensures var stored: nat := GetU64(bytes[offset..offset + 8]);
      var found := Parse(fileId, offset, bytes[offset..offset + stored]);
      && (found.Ok? <==> stored >= 97)
      && ScanFrom(fileId, bytes, offset) ==
           (if found.Ok? then [found.value] else []) + ScanFrom(fileId, bytes, offset + (stored + 7) / 8 * 8)
  {
    hide Parse, StoredSize, Ends, RecordAt, Next, ScanFrom, Found, GetU64;
    StepFacts(bytes, offset);
    ShortRecords(fileId, bytes, offset);
    ScanStep(fileId, bytes, offset, []);
    FoundIs(fileId, offset, RecordAt(bytes, offset));
    Nothing(ScanFrom(fileId, bytes, offset));
    Nothing(Found(fileId, offset, RecordAt(bytes, offset)));
  }

  lemma Nothing(s: seq<Parsed>)
    ensures [] + s == s
  {
  }

  lemma StepFacts(bytes: File, offset: nat)
    requires offset + 8 <= |bytes| && 0 < GetU64(bytes[offset..offset + 8]) <= |bytes| - offset
    ensures var stored: nat := GetU64(bytes[offset..offset + 8]);
      && !Ends(bytes, offset) && RecordAt(bytes, offset) == bytes[offset..offset + stored]
      && Next(bytes, offset) == offset + (stored + 7) / 8 * 8
  {
    hide GetU64;
  }

  lemma ShortRecords(fileId: u64, bytes: File, offset: nat)
    requires offset + 8 <= |bytes| && 0 < GetU64(bytes[offset..offset + 8]) <= |bytes| - offset
    ensures var stored := GetU64(bytes[offset..offset + 8]);
      Parse(fileId, offset, bytes[offset..offset + stored]).Ok? <==> stored >= 97
  {
    var stored := GetU64(bytes[offset..offset + 8]);
    var record := bytes[offset..offset + stored];
    if stored >= 8 {
      assert record[0..8] == bytes[offset..offset + 8];
    }
    ParsesWhen(fileId, offset, record);
    hide Parse;
  }

  // ---------------------------------------------------------------- reading a location back

  datatype OutOfBounds = OutOfBounds(offset: nat, len: nat, fileSize: nat)

  /** `read_bytes`. */
  function ReadBytes(bytes: File, l: AccountLocation): Result<seq<byte>, OutOfBounds> {
    var start, end := l.offset, l.offset + l.storedSize;
    if end > |bytes| then Err(OutOfBounds(l.offset, l.storedSize, |bytes|)) else Ok(bytes[start..end])
  }

  /** `get_account_data`. */
  function GetAccountData(bytes: File, l: AccountLocation): Result<seq<byte>, OutOfBounds> {
    var start := l.offset + l.dataOffset;
    if start + l.dataLen > |bytes| then Err(OutOfBounds(start, l.dataLen, |bytes|))
    else Ok(bytes[start..start + l.dataLen])
  }

  /** Reads return bytes of the file of the length asked for, from where they were asked for, and fail exactly when
      these would reach past its end. */
  lemma ReadsStayInside(bytes: File, l: AccountLocation)
    ensures match ReadBytes(bytes, l)
      case Ok(r) => |r| == l.storedSize && r + bytes[l.offset + |r|..] == bytes[l.offset..]
      case Err(e) => e == OutOfBounds(l.offset, l.storedSize, |bytes|) && e.offset + e.len > e.fileSize
    ensures match GetAccountData(bytes, l)
      case Ok(r) => |r| == l.dataLen && r + bytes[l.offset + l.dataOffset + |r|..] == bytes[l.offset + l.dataOffset..]
      case Err(e) => e == OutOfBounds(l.offset + l.dataOffset, l.dataLen, |bytes|) && e.offset + e.len > e.fileSize
  {
  }

  /**
   The location of a scanned account reads back the whole record exactly when the record is shorter
   than 4 GiB (sizes are cast to 32 bits), and then re-parses to the same account; likewise its data.
   */
  lemma LocationReadsBack(fileId: u64, bytes: File, offset: nat, a: Parsed)
    requires a in ScanFrom(fileId, bytes, offset)
    ensures a.location.offset + RecordLength(a) <= |bytes|
    ensures var start := a.location.offset; var record := bytes[start..start + RecordLength(a)];
      && Parse(fileId, start, record) == Ok(a)
      && (ReadBytes(bytes, a.location) == Ok(record) <==> RecordLength(a) < U32_RANGE)
      && (GetAccountData(bytes, a.location) == Ok(a.data) <==> |a.data| < U32_RANGE)
  {
    ScanIsSound(fileId, bytes, offset);
    hide ScanFrom;
    hide Parse;
    var start, len := a.location.offset, RecordLength(a);
    assert StoredAt(fileId, bytes, a);
    if ReadBytes(bytes, a.location) == Ok(bytes[start..start + len]) {
      assert |ReadBytes(bytes, a.location).value| == TruncU32(len);
    }
    if GetAccountData(bytes, a.location) == Ok(a.data) {
      assert |GetAccountData(bytes, a.location).value| == TruncU32(|a.data|);
    }
  }

  /** The locator's encoding carries the location faithfully, so a stored location reads back the same account. */
  lemma StoredLocationReadsBack(fileId: u64, bytes: File, offset: nat, a: Parsed)
    requires a in ScanFrom(fileId, bytes, offset) && RecordLength(a) < U32_RANGE
    ensures Deserialize(Serialize(a.location)).Ok?
    ensures var l := Deserialize(Serialize(a.location)).value;
      && ReadBytes(bytes, l).Ok? && Parse(fileId, l.offset, ReadBytes(bytes, l).value) == Ok(a)
      && GetAccountData(bytes, l) == Ok(a.data)
  {
    LocationReadsBack(fileId, bytes, offset, a);
    DeserializeSerialize(a.location, []);
    assert Serialize(a.location) + [] == Serialize(a.location);
  }

  /** In a file below 4 GiB every location is faithful. */
  lemma SmallFilesReadBack(fileId: u64, bytes: File, offset: nat)
    requires |bytes| < U32_RANGE
    ensures forall a <- ScanFrom(fileId, bytes, offset) ::
      ReadBytes(bytes, a.location).Ok? && GetAccountData(bytes, a.location) == Ok(a.data)
  {
    ScanIsSound(fileId, bytes, offset);
    forall a | a in ScanFrom(fileId, bytes, offset)
      ensures ReadBytes(bytes, a.location).Ok? && GetAccountData(bytes, a.location) == Ok(a.data)
    {
      LocationReadsBack(fileId, bytes, offset, a);
    }
  }

  // ---------------------------------------------------------------- scanning what was encoded

  function EncodePadded(r: Record): (s: seq<byte>)
    requires RecordSize(r) < U64_RANGE
    ensures |s| == AlignTo8(RecordSize(r))
  {
    var n := RecordSize(r);
    PaddingIsAlignment(n);
    EncodeRecord(r) + Zeros(PaddingNeeded(n, 8))
  }

  function PaddedSize(rs: seq<Record>): nat {
    if rs == [] then 0 else AlignTo8(RecordSize(rs[0])) + PaddedSize(rs[1..])
  }

  function EncodeAll(rs: seq<Record>): (s: seq<byte>)
    requires PaddedSize(rs) < U64_RANGE
    ensures |s| == PaddedSize(rs)
  {
    if rs == [] then [] else EncodePadded(rs[0]) + EncodeAll(rs[1..])
  }

  /** The accounts that records laid out from `offset` on stand for. */
  function AccountsOf(fileId: u64, offset: nat, rs: seq<Record>): seq<Parsed>
    requires offset + PaddedSize(rs) < U64_RANGE
    decreases |rs|
  {
    if rs == [] then []
    else [ParsedFrom(fileId, offset, rs[0])] + AccountsOf(fileId, offset + AlignTo8(RecordSize(rs[0])), rs[1..])
  }

  lemma ZeroTailEndsScan(fileId: u64, bytes: File, offset: nat)
    requires offset <= |bytes| && forall i :: offset <= i < |bytes| ==> bytes[i] == 0
    ensures ScanFrom(fileId, bytes, offset) == []
  {
    if offset + 8 <= |bytes| {
      assert bytes[offset..offset + 8] == Zeros(8);
      GetPut64(0);
      assert U64Bytes(0) == Zeros(8);
    }
  }

  /** A scan standing at an encoded, padded record finds it and steps over its padding. */
  lemma ScanStepsOverRecord(fileId: u64, prefix: seq<byte>, r: Record, after: seq<byte>)
    requires |prefix| + AlignTo8(RecordSize(r)) + |after| < U64_RANGE
    ensures var bytes: File := prefix + EncodePadded(r) + after;
      ScanFrom(fileId, bytes, |prefix|) ==
        [ParsedFrom(fileId, |prefix|, r)] + ScanFrom(fileId, bytes, |prefix| + AlignTo8(RecordSize(r)))
  {
    hide Parse;
    hide EncodeRecord;
    hide ParsedFrom;
    var bytes: File := prefix + EncodePadded(r) + after;
    var n := RecordSize(r);
    assert bytes[|prefix|..|prefix| + n] == EncodeRecord(r);
    assert bytes[|prefix|..|prefix| + 8] == EncodeRecord(r)[0..8];
    StoredSizeOf(r);
    ParseEncoded(fileId, |prefix|, r);
  }

  /**
   Scanning any list of encoded, padded records, after any prefix and before any zero tail, yields
   exactly those records in order, at the offsets where they were laid.
   */
  lemma {:induction false} ScanOfEncoded(fileId: u64, prefix: seq<byte>, rs: seq<Record>, tail: nat)
    requires |prefix| + PaddedSize(rs) + tail < U64_RANGE
    ensures ScanFrom(fileId, prefix + EncodeAll(rs) + Zeros(tail), |prefix|) == AccountsOf(fileId, |prefix|, rs)
    decreases |rs|
  {
    hide ScanFrom;
    hide EncodePadded;
    hide ParsedFrom;
    hide AlignTo8;
    hide Zeros;
    if rs == [] {
      assert prefix + EncodeAll(rs) + Zeros(tail) == prefix + Zeros(tail);
      ZeroTailEndsScan(fileId, prefix + Zeros(tail), |prefix|);
    } else {
      var first, after := EncodePadded(rs[0]), EncodeAll(rs[1..]) + Zeros(tail);
      Regroup(prefix, first, EncodeAll(rs[1..]), Zeros(tail));
      ScanStepsOverRecord(fileId, prefix, rs[0], after);
      ScanOfEncoded(fileId, prefix + first, rs[1..], tail);
    }
  }

  lemma Regroup(p: seq<byte>, f: seq<byte>, r: seq<byte>, z: seq<byte>)
    ensures p + (f + r) + z == p + f + (r + z) == (p + f) + r + z
  {
  }

  // ---------------------------------------------------------------- lookups

  /** The record whose first byte is at `offset`; `None` stands for the slice panic on an oversized one. */
  function AccountAt(fileId: u64, offset: nat, bytes: File): Option<Result<Parsed, ParseError>> {
    if offset + 8 > |bytes| then Some(Err(MetadataOverflow))
    else
      var stored := StoredSize(bytes, offset);
      if offset + stored > |bytes| then None else Some(Parse(fileId, offset, bytes[offset..offset + stored]))
  }

  /** `get_account_at_offset`: with a file header its size is added to the given offset. */
  function GetAccountAtOffset(hasHeader: bool, fileId: u64, offset: u64, bytes: File): Option<Result<Parsed, ParseError>> {
    AccountAt(fileId, offset + HeaderSize(hasHeader), bytes)
  }

  /** A lookup fails on too few bytes for a size, panics on a size past the end of the file, and otherwise finds an
      account exactly where the size leaves room for its metadata. */
  lemma LookupOutcome(fileId: u64, offset: nat, bytes: File)
    ensures var r := AccountAt(fileId, offset, bytes);
      if offset + 8 > |bytes| then r == Some(Err(MetadataOverflow))
      else
        var stored: nat := GetU64(bytes[offset..offset + 8]);
        && (r.None? <==> offset + stored > |bytes|)
        && (r.Some? ==> if stored >= 97 then r.value.Ok? else r.value == Err(MetadataOverflow))
  {
    if offset + 8 <= |bytes| {
      var stored := StoredSize(bytes, offset);
      if offset + stored <= |bytes| {
        var record := bytes[offset..offset + stored];
        assert stored >= 8 ==> record[0..8] == bytes[offset..offset + 8];
        ParsesWhen(fileId, offset, record);
      }
    }
    hide Parse;
  }

  /** What is found at an offset is located there. */
  lemma FoundThere(fileId: u64, offset: nat, bytes: File, a: Parsed)
    requires AccountAt(fileId, offset, bytes) == Some(Ok(a))
    ensures a.location.offset == offset
  {
    var record := bytes[offset..offset + StoredSize(bytes, offset)];
    ParsesWhen(fileId, offset, record);
    hide Parse;
  }

  lemma {:induction false} ScannedIsThere(fileId: u64, bytes: File, offset: nat, a: Parsed)
    requires a in ScanFrom(fileId, bytes, offset)
    ensures AccountAt(fileId, a.location.offset, bytes) == Some(Ok(a))
    decreases |bytes| - offset
  {
    hide Parse;
    hide StoredAt;
    hide RecordAt;
    hide Next;
    hide AccountAt;
    var next := Next(bytes, offset);
    if a in ScanFrom(fileId, bytes, next) {
      ScannedIsThere(fileId, bytes, next, a);
    } else {
      RecordIsStored(fileId, bytes, offset);
    }
  }

  lemma FoundOnlyThere(fileId: u64, bytes: File, start: nat, a: Parsed, offset: nat)
    requires a in ScanFrom(fileId, bytes, start)
    ensures AccountAt(fileId, offset, bytes) == Some(Ok(a)) <==> offset == a.location.offset
  {
    hide AccountAt;
    ScannedIsThere(fileId, bytes, start, a);
    if AccountAt(fileId, offset, bytes) == Some(Ok(a)) {
      FoundThere(fileId, offset, bytes, a);
    }
  }

  /** For every scanned account exactly one offset finds it: the one in its location less the file header.  In
      files with a header the location's own offset, which has the header in it, never does. */
  lemma ScannedOffsetsLookUp(hasHeader: bool, fileId: u64, bytes: File, start: nat, a: Parsed, offset: u64)
    requires a in ScanFrom(fileId, bytes, start)
    ensures GetAccountAtOffset(hasHeader, fileId, offset, bytes) == Some(Ok(a)) <==>
      (if hasHeader then offset + 8 else offset) == a.location.offset
    ensures GetAccountAtOffset(hasHeader, fileId, a.location.offset, bytes) == Some(Ok(a)) <==> !hasHeader
  {
    hide AccountAt, ScanFrom;
    FoundOnlyThere(fileId, bytes, start, a, offset + HeaderSize(hasHeader));
    FoundOnlyThere(fileId, bytes, start, a, a.location.offset + HeaderSize(hasHeader));
  }

  predicate FirstWith(accounts: seq<Parsed>, target: Pubkey, i: nat)
    requires i < |accounts|
  {
    accounts[i].pubkey == target && forall j :: 0 <= j < i ==> accounts[j].pubkey != target
  }

  /** `locate_account`: the location of the first scanned account with that address. */
  method LocateAccount(fileId: u64, bytes: File, target: Pubkey) returns (r: Option<AccountLocation>)
    ensures var accounts := ScanFrom(fileId, bytes, 0);
      match r
      case None => forall a <- accounts :: a.pubkey != target
      case Some(l) => exists i :: 0 <= i < |accounts| && FirstWith(accounts, target, i) && accounts[i].location == l
  {
    hide ScanFrom;
    var accounts := ScanFile(false, fileId, bytes);
    for i := 0 to |accounts|
      invariant forall j :: 0 <= j < i ==> accounts[j].pubkey != target
    {
      if accounts[i].pubkey == target {
        assert FirstWith(accounts, target, i);
        return Some(accounts[i].location);
      }
    }
    r := None;
  }
}
