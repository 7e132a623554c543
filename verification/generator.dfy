/**
 * Candidate generation and address derivation (`generate_tron_address_optimized`
 * and `double_sha256_optimized`, src/main.rs:145-224).
 *
 * The foreign pieces are parameters, bundled in `Primitives`: the secp256k1 public
 * key of a 32-byte scalar (absent when the scalar is out of range), Keccak-256,
 * SHA-256 and the Base58 encoder. Their output formats are carried by subset types;
 * nothing else about them is assumed.
 */
module Generator {
  import opened Wrappers
  import opened Bytes
  import Trailing
  import Hex
  import opened Records

  /** A 256-bit digest. */
  type Digest = d: seq<uint8> | |d| == 32 witness seq(32, _ => 0)

  /** The 32 random bytes drawn as a private key. */
  type PrivateKey = k: seq<uint8> | |k| == 32 witness seq(32, _ => 0)

  /** An uncompressed secp256k1 public key: the format byte 0x04, then X and Y. */
  type UncompressedKey = k: seq<uint8> | |k| == 65 && k[0] == 0x04 witness [0x04] + seq(64, _ => 0)

  /** The Bitcoin Base58 alphabet: digits and letters without 0, O, I and l. */
  predicate IsBase58Char(c: char)
  {
    || '1' <= c <= '9'
    || ('A' <= c <= 'Z' && c != 'I' && c != 'O')
    || ('a' <= c <= 'z' && c != 'l')
  }

  predicate IsBase58(s: string)
  {
    forall i | 0 <= i < |s| :: IsBase58Char(s[i])
  }

  type Base58Text = s: string | IsBase58(s) witness ""

  datatype Primitives = Primitives(
    publicKeyOf: PrivateKey -> Option<UncompressedKey>,
    keccak256: seq<uint8> -> Digest,
    sha256: seq<uint8> -> Digest,
    base58: seq<uint8> -> Base58Text)

  /** The Tron mainnet address prefix. */
  const TronPrefix: uint8 := 0x41

  // ---------------------------------------------------------------------------
  // Bytes of the address text (`str::as_bytes`); Base58 text is ASCII.

  function ByteOf(c: char): (b: uint8)
    requires IsBase58Char(c)
  {
    (c as int) as uint8
  }

  lemma ByteOfInjective(a: char, b: char)
    requires IsBase58Char(a) && IsBase58Char(b)
    ensures ByteOf(a) == ByteOf(b) <==> a == b
  {
  }

  function AsciiBytes(s: Base58Text): (bs: seq<uint8>)
    ensures |bs| == |s|
  {
    seq(|s|, i requires 0 <= i < |s| => ByteOf(s[i]))
  }

  /** Counting equal bytes of the address is counting equal characters. */
  lemma ByteRunIsCharRun(s: Base58Text)
    ensures Trailing.TrailingRun(AsciiBytes(s)) == Trailing.TrailingRun(s)
  {
    var bs := AsciiBytes(s);
    var n := Trailing.TrailingRun(bs);
    if |s| > 0 {
      var last := |s| - 1;
      forall i | |s| - n <= i < |s| ensures s[i] == s[last] {
        assert bs[i] == bs[last];
        ByteOfInjective(s[i], s[last]);
      }
      if n < |s| {
        ByteOfInjective(s[|s| - n - 1], s[last]);
      }
    }
    Trailing.TrailingRunUnique(s, n, Trailing.TrailingRun(s));
  }

  // ---------------------------------------------------------------------------
  // Streaming hashers kept in thread-local storage by the source.

  /** A streaming hash context: the bytes absorbed since its last reset. */
  datatype Hasher = Hasher(absorbed: seq<uint8>)

  const Fresh := Hasher([])

  function Reset(h: Hasher): Hasher
  {
    Fresh
  }

  function Update(h: Hasher, data: seq<uint8>): Hasher
  {
    Hasher(h.absorbed + data)
  }

  function Finalize(hash: seq<uint8> -> Digest, h: Hasher): Digest
  {
    hash(h.absorbed)
  }

  /** The two per-thread SHA-256 contexts `HASHER1` and `HASHER2`. */
  datatype Scratch = Scratch(h1: Hasher, h2: Hasher)

  /** Reference definition: SHA-256 applied twice. */
  function DoubleSha256(sha256: seq<uint8> -> Digest, data: seq<uint8>): Digest
  {
    sha256(sha256(data))
  }

  /** `double_sha256_optimized`: both contexts are reset before use and by
      `finalize_reset`, so whatever the scratch held, the digest is SHA-256
      applied twice and both contexts are left empty. */
  function DoubleSha256Scratch(sha256: seq<uint8> -> Digest, s: Scratch, data: seq<uint8>): (r: (Digest, Scratch))
    ensures r.0 == DoubleSha256(sha256, data)
    ensures r.1 == Scratch(Fresh, Fresh)
  {
    var h1 := Update(Reset(s.h1), data);
    assert h1.absorbed == data;
    var first := Finalize(sha256, h1);
    var h1' := Reset(h1);
    var h2 := Update(Reset(s.h2), first);
    assert h2.absorbed == first;
    var digest := Finalize(sha256, h2);
    var h2' := Reset(h2);
    (digest, Scratch(h1', h2'))
  }

  // ---------------------------------------------------------------------------
  // Payload layout.

  /** What a wallet checks of a decoded address: 25 bytes whose last four are the
      first four bytes of the double SHA-256 of the first 21. */
  predicate ChecksumValid(sha256: seq<uint8> -> Digest, payload: seq<uint8>)
  {
    |payload| == 25 && payload[21..] == DoubleSha256(sha256, payload[..21])[..4]
  }

  /** Reference layout of the 25-byte address payload of a public key. */
  function Payload(p: Primitives, pub: UncompressedKey): (payload: seq<uint8>)
    ensures |payload| == 25
    ensures payload[0] == TronPrefix
    ensures payload[1..21] == p.keccak256(pub[1..])[12..32]
    ensures payload[21..25] == DoubleSha256(p.sha256, payload[..21])[..4]
    ensures ChecksumValid(p.sha256, payload)
  {
    var account := [TronPrefix] + p.keccak256(pub[1..])[12..];
    account + DoubleSha256(p.sha256, account)[..4]
  }

  /** Lines 164-182 as written: Keccak-256 of the key without its format byte, the
      last 20 digest bytes behind the prefix, then four checksum bytes computed with
      the thread-local hashers. The result does not depend on the scratch state. */
  function AssemblePayload(p: Primitives, s: Scratch, pub: UncompressedKey): (r: (seq<uint8>, Scratch))
    ensures r.0 == Payload(p, pub)
    ensures r.1 == Scratch(Fresh, Fresh)
  {
    var hash := Finalize(p.keccak256, Update(Fresh, pub[1..]));
    assert Update(Fresh, pub[1..]).absorbed == pub[1..];
    var addressBytes := [TronPrefix] + hash[12..];
    var (checksum, s') := DoubleSha256Scratch(p.sha256, s, addressBytes);
    var full := addressBytes + checksum[..4];
    (full, s')
  }

  /** Reference: the address of a key, absent when the key is not a valid scalar. */
  function AddressOf(p: Primitives, key: PrivateKey): Option<Base58Text>
  {
    match p.publicKeyOf(key)
    case None => None
    case Some(pub) => Some(p.base58(Payload(p, pub)))
  }

  /** Checksum round trip: for any Base58 decoder that inverts the encoder, decoding
      a derived address and recomputing the checksum over its first 21 bytes
      reproduces its last four. */
  lemma AddressChecksumRoundTrip(p: Primitives, decode: Base58Text -> Option<seq<uint8>>, key: PrivateKey)
    requires forall b :: decode(p.base58(b)) == Some(b)
    requires p.publicKeyOf(key).Some?
    ensures decode(AddressOf(p, key).value).Some?
    ensures ChecksumValid(p.sha256, decode(AddressOf(p, key).value).value)
  {
  }

  // ---------------------------------------------------------------------------
  // One attempt.

  /** The record of an accepted candidate, as the miner checks it. */
  predicate WellFormed(r: Record, minSameChars: nat)
  {
    && IsBase58(r.address)
    && r.sameChars == Trailing.TrailingRun(r.address)
    && r.sameChars >= minSameChars
    && |r.privateKey| == 64
    && Hex.IsLowerHex(r.privateKey)
  }

  lemma WellFormedIsLineSafe(r: Record, minSameChars: nat)
    requires WellFormed(r, minSameChars)
    ensures LineSafe(r)
  {
    assert NoNewline(r.address) by {
      forall i | 0 <= i < |r.address| ensures r.address[i] != '\n' {
        assert IsBase58Char(r.address[i]);
      }
    }
    assert NoNewline(r.privateKey) by {
      forall i | 0 <= i < |r.privateKey| ensures r.privateKey[i] != '\n' {
        assert r.privateKey[i] in Hex.LowerDigits;
      }
    }
  }

  /** `generate_tron_address_optimized` for one drawn key: no record when the key is
      not a valid scalar or the address's trailing run is below the threshold;
      otherwise the address, the hex key and the run length. */
  function Attempt(p: Primitives, s: Scratch, key: PrivateKey, minSameChars: nat): (r: (Option<Record>, Scratch))
    ensures r.0.Some? <==>
              AddressOf(p, key).Some? && Trailing.Accepts(AddressOf(p, key).value, minSameChars)
    ensures r.0.Some? ==>
              && r.0.value.address == AddressOf(p, key).value
              && r.0.value.privateKey == Hex.Encode(key)
              && r.0.value.sameChars == Trailing.TrailingRun(r.0.value.address)
    ensures r.0.Some? ==> WellFormed(r.0.value, minSameChars) && LineSafe(r.0.value)
    ensures r.0.Some? ==> Hex.Decode(r.0.value.privateKey) == Some(key)
  {
    match p.publicKeyOf(key)
    case None => (None, s)
    case Some(pub) =>
      var (full, s') := AssemblePayload(p, s, pub);
      var address := p.base58(full);
      var count := Trailing.TrailingRun(AsciiBytes(address));
      ByteRunIsCharRun(address);
      if count >= minSameChars then
        var rec := Record(address, Hex.Encode(key), count);
        Hex.DecodeEncode(key);
        WellFormedIsLineSafe(rec, minSameChars);
        (Some(rec), s')
      else
        (None, s')
  }

  /** Reusing the thread-local scratch state never changes the outcome. */
  lemma AttemptIgnoresScratch(p: Primitives, s: Scratch, t: Scratch, key: PrivateKey, minSameChars: nat)
    ensures Attempt(p, s, key, minSameChars).0 == Attempt(p, t, key, minSameChars).0
  {
  }

  /** A key accepted at a threshold is accepted at every lower threshold, with the
      same record. */
  lemma AttemptMonotone(p: Primitives, s: Scratch, key: PrivateKey, k: nat, k': nat)
    requires k' <= k && Attempt(p, s, key, k).0.Some?
    ensures Attempt(p, s, key, k').0 == Attempt(p, s, key, k).0
  {
  }
}
