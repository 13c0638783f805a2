/** Account addresses: prefix, version byte, key hash and checksum in hexadecimal. */
module Addresses {
  import opened Words
  import Hex
  import TxCodec

  const CHECKSUM_LEN := 4
  const VERSION := 0

  /** ValidateAddress: any hexadecimal behind the prefix whose last bytes are its checksum. */
  predicate ValidAddress(sha: Bytes -> Digest, addr: string) {
    && |addr| >= |TxCodec.ADDRESS_PREFIX| + 10 && addr[..3] == TxCodec.ADDRESS_PREFIX
    && match Hex.Decode(addr[3..])
       case None => false
       case Some(b) => |b| > CHECKSUM_LEN && b[|b| - CHECKSUM_LEN..] == sha(b[..|b| - CHECKSUM_LEN])[..CHECKSUM_LEN]
  }

  function AddressBytes(sha: Bytes -> Digest, pub: Bytes): Bytes {
    var data := [VERSION] + sha(pub);
    data + sha(data)[..CHECKSUM_LEN]
  }

  /** GenerateAddress */
  function GenerateAddress(sha: Bytes -> Digest, pub: Bytes): string {
    TxCodec.ADDRESS_PREFIX + Hex.Encode(AddressBytes(sha, pub))
  }

  lemma {:induction false} EncodedLength(b: Bytes)
    ensures |Hex.Encode(b)| == 2 * |b|
  {
    if b != [] { EncodedLength(b[1..]); }
  }

  /** A generated address is valid, and names the hash of its key. */
  lemma GeneratedIsValid(sha: Bytes -> Digest, pub: Bytes)
    ensures ValidAddress(sha, GenerateAddress(sha, pub))
    ensures TxCodec.DecodeHex32(GenerateAddress(sha, pub)) == Some(sha(pub))
    ensures var addr := GenerateAddress(sha, pub);
            && |addr| == 77 && addr[..3] == "NEO"
            && Hex.Decode(addr[3..]) == Some([0] + sha(pub) + sha([0] + sha(pub))[..4])
  {
    var data: Bytes := [VERSION] + sha(pub);
    var all, addr := AddressBytes(sha, pub), GenerateAddress(sha, pub);
    Hex.RoundTrip(all);
    EncodedLength(all);
    assert addr[3..] == Hex.Encode(all) && addr[..3] == TxCodec.ADDRESS_PREFIX;
    assert all[..33] == data && all[33..] == sha(data)[..CHECKSUM_LEN];
    assert all[1..33] == sha(pub);
  }

  /** Keys with different hashes have different addresses. */
  lemma AddressesSeparate(sha: Bytes -> Digest, p: Bytes, q: Bytes)
    ensures GenerateAddress(sha, p) == GenerateAddress(sha, q) <==> sha(p) == sha(q)
  {
    GeneratedIsValid(sha, p);
    GeneratedIsValid(sha, q);
  }

  /** An address in capitals is as valid and names the same hash; it is another string when it has a letter. */
  lemma CapitalsDecodeAlike(sha: Bytes -> Digest, s: string)
    ensures var addr, capital := TxCodec.ADDRESS_PREFIX + s, TxCodec.ADDRESS_PREFIX + Hex.Upper(s);
            && (ValidAddress(sha, addr) <==> ValidAddress(sha, capital))
            && TxCodec.DecodeHex32(addr) == TxCodec.DecodeHex32(capital)
            && (addr == capital <==> s == Hex.Upper(s))
  {
    var addr, capital := TxCodec.ADDRESS_PREFIX + s, TxCodec.ADDRESS_PREFIX + Hex.Upper(s);
    Hex.CaseIgnored(s);
    assert addr[3..] == s && capital[3..] == Hex.Upper(s);
    assert addr[..3] == TxCodec.ADDRESS_PREFIX == capital[..3];
    ReadAlike(sha, addr, capital);
  }

  lemma ReadAlike(sha: Bytes -> Digest, a: string, b: string)
    requires |a| == |b| >= 3 && a[..3] == b[..3] == TxCodec.ADDRESS_PREFIX && Hex.Decode(a[3..]) == Hex.Decode(b[3..])
    ensures ValidAddress(sha, a) <==> ValidAddress(sha, b)
    ensures TxCodec.DecodeHex32(a) == TxCodec.DecodeHex32(b)
  {
  }
}
