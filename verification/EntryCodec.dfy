/**
 The record shared by the ring buffer (`RingEntry`) and the delta segments (`DeltaEntry`):
 a 64-byte header followed by the account data.  Struct padding is written as zero.
 */
module EntryCodec {
  import opened Bytes

  const HEADER_SIZE: nat := 64

  datatype Entry = Entry(slot: u64, version: u64, key: Pubkey, data: seq<byte>)

  datatype Header = Header(size: u32, slot: u64, version: u64, key: Pubkey, dataLen: u32)

  /** The value of the 32-bit size field, cast down as the code does. */
  function EntrySize(e: Entry): u32 {
    TruncU32(HEADER_SIZE + |e.data|)
  }

  /** The whole record is shorter than 4 GiB. */
  predicate Fits(e: Entry) {
    HEADER_SIZE + |e.data| < U32_RANGE
  }

  function HeaderOf(e: Entry): Header {
    Header(EntrySize(e), e.slot, e.version, e.key, TruncU32(|e.data|))
  }

  function HeaderBytes(h: Header): (s: seq<byte>)
    ensures |s| == HEADER_SIZE
  {
    U32Bytes(h.size) + Zeros(4) + U64Bytes(h.slot) + U64Bytes(h.version) + h.key + U32Bytes(h.dataLen) + Zeros(4)
  }

  function ParseHeader(s: seq<byte>): Header
    requires |s| == HEADER_SIZE
  {
    Header(GetU32(s[0..4]), GetU64(s[8..16]), GetU64(s[16..24]), s[24..56], GetU32(s[56..60]))
  }

  function Encode(e: Entry): (s: seq<byte>)
    ensures |s| == HEADER_SIZE + |e.data|
    ensures s[..HEADER_SIZE] == HeaderBytes(HeaderOf(e)) && s[HEADER_SIZE..] == e.data
  {
    HeaderBytes(HeaderOf(e)) + e.data
  }

  lemma ParseHeaderBytes(h: Header)
    ensures ParseHeader(HeaderBytes(h)) == h
  {
    var s := HeaderBytes(h);
    assert s[0..4] == U32Bytes(h.size);
    assert s[8..16] == U64Bytes(h.slot);
    assert s[16..24] == U64Bytes(h.version);
    assert s[24..56] == h.key;
    assert s[56..60] == U32Bytes(h.dataLen);
    GetPut32(h.size);
    GetPut64(h.slot);
    GetPut64(h.version);
    GetPut32(h.dataLen);
  }

  /** Where each field of a record lies, and what it counts. */
  lemma RecordLayout(e: Entry)
    ensures var s := Encode(e);
      && |s| == 64 + |e.data| && s[64..] == e.data
      && GetU32(s[0..4]) == |s| % 0x1_0000_0000 && s[4..8] == Zeros(4)
      && GetU64(s[8..16]) == e.slot && GetU64(s[16..24]) == e.version && s[24..56] == e.key
      && GetU32(s[56..60]) == |e.data| % 0x1_0000_0000 && s[60..64] == Zeros(4)
  {
    var s, h := Encode(e), HeaderOf(e);
    var b := HeaderBytes(h);
    assert b[0..4] == U32Bytes(h.size) && b[8..16] == U64Bytes(h.slot) && b[16..24] == U64Bytes(h.version);
    assert b[24..56] == h.key && b[56..60] == U32Bytes(h.dataLen) && b[4..8] == Zeros(4) && b[60..64] == Zeros(4);
    hide HeaderBytes, Encode;
    assert forall i, j :: 0 <= i <= j <= 64 ==> s[..HEADER_SIZE][i..j] == s[i..j];
    GetPut32(h.size);
    GetPut64(h.slot);
    GetPut64(h.version);
    GetPut32(h.dataLen);
  }

  /** The size field tells the truth exactly for records below 4 GiB. */
  lemma SizeFieldIsExact(e: Entry)
    ensures ParseHeader(Encode(e)[..HEADER_SIZE]).size == |Encode(e)| <==> Fits(e)
  {
    hide HeaderBytes, ParseHeader, Encode;
    ParseHeaderBytes(HeaderOf(e));
  }

  /** The records laid end to end. */
  function Log(es: seq<Entry>): seq<byte> {
    if es == [] then [] else Log(es[..|es| - 1]) + Encode(es[|es| - 1])
  }

  lemma LogNil()
    ensures Log([]) == []
  {
  }

  lemma LogSnoc(es: seq<Entry>, e: Entry)
    ensures Log(es + [e]) == Log(es) + Encode(e)
  {
    assert (es + [e])[..|es|] == es;
  }

  lemma {:induction false} LogPrefix(es: seq<Entry>, n: nat)
    requires n <= |es|
    ensures Log(es[..n]) <= Log(es)
  {
    if n == |es| {
      assert es[..n] == es;
    } else {
      var front := es[..|es| - 1];
      LogPrefix(front, n);
      assert front[..n] == es[..n];
      assert Log(es) == Log(front) + Encode(es[|es| - 1]);
    }
  }

  /** Entry `i` occupies the bytes right after the first `i` entries. */
  lemma LogAt(es: seq<Entry>, i: nat)
    requires i < |es|
    ensures |Log(es[..i + 1])| == |Log(es[..i])| + |Encode(es[i])| <= |Log(es)|
    ensures Log(es)[|Log(es[..i])|..|Log(es[..i + 1])|] == Encode(es[i])
  {
    LogSnoc(es[..i], es[i]);
    assert es[..i + 1] == es[..i] + [es[i]];
    LogPrefix(es, i + 1);
    hide Log, Encode, HeaderBytes;
    PrefixSlice(Log(es[..i]), Encode(es[i]), Log(es));
  }

  lemma PrefixSlice(a: seq<byte>, b: seq<byte>, whole: seq<byte>)
    requires a + b <= whole
    ensures whole[|a|..|a + b|] == b
  {
    assert (a + b)[|a|..] == b;
  }

  /** A bare entry is readable back from its own record. */
  lemma ReadBack(mem: seq<byte>, pos: nat, e: Entry)
    requires Fits(e)
    requires pos + |Encode(e)| <= |mem| && mem[pos..pos + |Encode(e)|] == Encode(e)
    ensures ParseHeader(mem[pos..pos + HEADER_SIZE]) == HeaderOf(e)
    ensures mem[pos + HEADER_SIZE..pos + HEADER_SIZE + |e.data|] == e.data
  {
    var frame := mem[pos..pos + |Encode(e)|];
    assert mem[pos..pos + HEADER_SIZE] == frame[..HEADER_SIZE];
    assert mem[pos + HEADER_SIZE..pos + HEADER_SIZE + |e.data|] == frame[HEADER_SIZE..];
    ParseHeaderBytes(HeaderOf(e));
  }
}
