/** Where an account's bytes are stored, and the 45-byte encoding kept in the locator table. */
module Location {
  import opened Bytes
  import opened Wrappers

  datatype StorageType = Base | Delta | Compacted

  datatype AccountLocation = AccountLocation(
    fileId: u64, offset: u64, storedSize: u32, dataOffset: u32, dataLen: u32,
    slot: u64, writeVersion: u64, storageType: StorageType)

  datatype LocatorError = TooShort(len: nat) | InvalidStorageType(tag: byte)

  const LOCATION_SIZE: nat := 45

  function TagOf(t: StorageType): byte {
    match t
    case Base => 0
    case Delta => 1
    case Compacted => 2
  }

  function Serialize(l: AccountLocation): (s: seq<byte>)
    ensures |s| == LOCATION_SIZE
  {
    U64Bytes(l.fileId) + U64Bytes(l.offset) + U32Bytes(l.storedSize) + U32Bytes(l.dataOffset)
    + U32Bytes(l.dataLen) + U64Bytes(l.slot) + U64Bytes(l.writeVersion) + [TagOf(l.storageType)]
  }

  function Deserialize(s: seq<byte>): Result<AccountLocation, LocatorError> {
    if |s| < LOCATION_SIZE then Err(TooShort(|s|))
    else if s[44] > 2 then Err(InvalidStorageType(s[44]))
    else Ok(AccountLocation(
      GetU64(s[0..8]), GetU64(s[8..16]), GetU32(s[16..20]), GetU32(s[20..24]), GetU32(s[24..28]),
      GetU64(s[28..36]), GetU64(s[36..44]),
      if s[44] == 0 then Base else if s[44] == 1 then Delta else Compacted))
  }

  /** Where each field of a location lies. */
  lemma LocationLayout(l: AccountLocation)
    ensures var s := Serialize(l);
      && |s| == 45 && GetU64(s[0..8]) == l.fileId && GetU64(s[8..16]) == l.offset
      && GetU32(s[16..20]) == l.storedSize && GetU32(s[20..24]) == l.dataOffset && GetU32(s[24..28]) == l.dataLen
      && GetU64(s[28..36]) == l.slot && GetU64(s[36..44]) == l.writeVersion
      && s[44] == match l.storageType { case Base => 0 case Delta => 1 case Compacted => 2 }
  {
    var s := Serialize(l);
    assert s[0..8] == U64Bytes(l.fileId) && s[8..16] == U64Bytes(l.offset);
    assert s[16..20] == U32Bytes(l.storedSize) && s[20..24] == U32Bytes(l.dataOffset);
    assert s[24..28] == U32Bytes(l.dataLen);
    assert s[28..36] == U64Bytes(l.slot) && s[36..44] == U64Bytes(l.writeVersion) && s[44] == TagOf(l.storageType);
    hide Serialize;
    GetPut64(l.fileId);
    GetPut64(l.offset);
    GetPut32(l.storedSize);
    GetPut32(l.dataOffset);
    GetPut32(l.dataLen);
    GetPut64(l.slot);
    GetPut64(l.writeVersion);
  }

  /** Decoding undoes encoding, whatever bytes follow the record. */
  lemma DeserializeSerialize(l: AccountLocation, tail: seq<byte>)
    ensures Deserialize(Serialize(l) + tail) == Ok(l)
  {
    var s := Serialize(l) + tail;
    assert s[0..8] == U64Bytes(l.fileId) && s[8..16] == U64Bytes(l.offset);
    assert s[16..20] == U32Bytes(l.storedSize) && s[20..24] == U32Bytes(l.dataOffset);
    assert s[24..28] == U32Bytes(l.dataLen);
    assert s[28..36] == U64Bytes(l.slot) && s[36..44] == U64Bytes(l.writeVersion);
    GetPut64(l.fileId);
    GetPut64(l.offset);
    GetPut32(l.storedSize);
    GetPut32(l.dataOffset);
    GetPut32(l.dataLen);
    GetPut64(l.slot);
    GetPut64(l.writeVersion);
  }

  /** Decoding succeeds exactly on 45 bytes or more with a known storage tag, and loses nothing of them. */
  lemma SerializeDeserialize(s: seq<byte>)
    ensures Deserialize(s).Ok? <==> |s| >= LOCATION_SIZE && s[44] <= 2
    ensures |s| < 45 ==> Deserialize(s) == Err(TooShort(|s|))
    ensures |s| >= 45 && s[44] > 2 ==> Deserialize(s) == Err(InvalidStorageType(s[44]))
    ensures Deserialize(s).Ok? ==> Serialize(Deserialize(s).value) == s[..LOCATION_SIZE]
  {
    if |s| >= LOCATION_SIZE && s[44] <= 2 {
      PutGet64(s[0..8]);
      PutGet64(s[8..16]);
      PutGet32(s[16..20]);
      PutGet32(s[20..24]);
      PutGet32(s[24..28]);
      PutGet64(s[28..36]);
      PutGet64(s[36..44]);
      hide *;
      assert s[..16] == s[0..8] + s[8..16];
      assert s[..20] == s[..16] + s[16..20];
      assert s[..24] == s[..20] + s[20..24];
      assert s[..28] == s[..24] + s[24..28];
      assert s[..36] == s[..28] + s[28..36];
      assert s[..44] == s[..36] + s[36..44];
      assert s[..45] == s[..44] + [s[44]];
    }
  }
}
