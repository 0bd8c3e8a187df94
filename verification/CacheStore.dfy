/** The entries of the persistent cache and how they are published (internal/cache/store.go). */
module CacheStore {
  import opened Encoding
  import opened Ordering
  import opened Wrappers

  type Hash = seq<Byte> -> Digest
  type Key = Digest
  type Payload = Text

  const MAGIC: seq<Byte> := Ascii("GLIPPYCACHE") + [1]
  const HEADER_SIZE: nat := 84
  const MAX_ENTRY_SIZE: nat := 0x100_0000

  // ---------- The entry format ----------

  function EntryBytes(key: Key, payload: Payload, sha256: Hash): seq<Byte> {
    MAGIC + key + sha256(payload) + U64(|payload|) + payload
  }

  /** The payload of an entry that is whole and belongs to `key`. */
  function Decode(key: Key, encoded: seq<Byte>, sha256: Hash): Option<Payload> {
    if |encoded| < HEADER_SIZE || encoded[..12] != MAGIC then None
    else if encoded[12..44] != key then None
    else
      var length := FromBigEndian(encoded[76..84]);
      if length > MAX_ENTRY_SIZE || length != |encoded| - HEADER_SIZE then None
      else
        var payload := encoded[84..];
        if sha256(payload) != encoded[44..76] then None else Some(payload)
  }

  lemma EntryParts(key: Key, payload: Payload, sha256: Hash)
    ensures var e := EntryBytes(key, payload, sha256);
      && |e| == HEADER_SIZE + |payload|
      && e[..12] == MAGIC && e[12..44] == key && e[44..76] == sha256(payload) && e[76..84] == U64(|payload|)
        && e[84..] == payload
  {
    var e := EntryBytes(key, payload, sha256);
    assert |MAGIC| == 12;
    assert e == MAGIC + (key + sha256(payload) + U64(|payload|) + payload);
    assert e == MAGIC + key + (sha256(payload) + U64(|payload|) + payload);
    assert e == MAGIC + key + sha256(payload) + (U64(|payload|) + payload);
  }

  /** Decoding accepts exactly the encodings of payloads within the limit, and gives the payload back. */
  lemma DecodeInvertsEncode(key: Key, encoded: seq<Byte>, payload: Payload, sha256: Hash)
    ensures Decode(key, encoded, sha256) == Some(payload) <==>
      encoded == EntryBytes(key, payload, sha256) && |payload| <= MAX_ENTRY_SIZE
  {
    if encoded == EntryBytes(key, payload, sha256) {
      EncodedIsDecoded(key, payload, sha256);
    }
    if Decode(key, encoded, sha256) == Some(payload) {
      DecodedIsEncoded(key, encoded, payload, sha256);
    }
  }

  lemma EncodedIsDecoded(key: Key, payload: Payload, sha256: Hash)
    ensures Decode(key, EntryBytes(key, payload, sha256), sha256) ==
      if |payload| <= MAX_ENTRY_SIZE then Some(payload) else None
  {
    hide EntryBytes, FromBigEndian;
    Power256Is64();
    EntryParts(key, payload, sha256);
    BigEndianRoundTrip(|payload|, 8);
  }

  lemma DecodedIsEncoded(key: Key, encoded: seq<Byte>, payload: Payload, sha256: Hash)
    requires Decode(key, encoded, sha256) == Some(payload)
    ensures encoded == EntryBytes(key, payload, sha256) && |payload| <= MAX_ENTRY_SIZE
  {
    hide FromBigEndian;
    FromBigEndianRoundTrip(encoded[76..84]);
    assert encoded == encoded[..12] + encoded[12..44] + encoded[44..76] + encoded[76..84] + encoded[84..];
  }

  method Copy(target: array<Byte>, offset: nat, source: seq<Byte>)
    requires offset + |source| <= target.Length
    modifies target
    ensures target[..] == old(target[..offset]) + source + old(target[offset + |source|..])
  {
    for i := 0 to |source|
      invariant target[..] == old(target[..offset]) + source[..i] + old(target[offset + i..])
    {
      target[offset + i] := source[i];
    }
    assert source[..|source|] == source;
  }

  /** `encodeEntry`: the buffer is filled piece by piece at growing offsets. */
  method EncodeEntry(key: Key, payload: Payload, sha256: Hash) returns (encoded: array<Byte>)
    ensures fresh(encoded) && encoded[..] == EntryBytes(key, payload, sha256)
  {
    encoded := new Byte[HEADER_SIZE + |payload|](_ => 0);
    Copy(encoded, 0, MAGIC);
    var offset := |MAGIC|;
    assert encoded[..offset] == MAGIC;
    Copy(encoded, offset, key);
    offset := offset + |key|;
    assert encoded[..offset] == MAGIC + key;
    var digest := sha256(payload);
    Copy(encoded, offset, digest);
    offset := offset + |digest|;
    assert encoded[..offset] == MAGIC + key + digest;
    Copy(encoded, offset, U64(|payload|));
    assert encoded[..HEADER_SIZE] == MAGIC + key + digest + U64(|payload|);
    Copy(encoded, HEADER_SIZE, payload);
    assert encoded[..] == EntryBytes(key, payload, sha256);
  }
}
