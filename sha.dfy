/**
 * hashlib.sha256 as the system uses it. SHA-256 itself is not modelled: every
 * operation that hashes takes the hash function as a parameter.
 */
module Sha {
  import opened Strings

  /** A SHA-256 digest: 32 bytes. */
  type Digest = d: seq<Byte> | |d| == 32 witness seq(32, i => 0)

  /** s -> hashlib.sha256(s.encode()).digest() */
  type Hasher = string -> Digest

  /** hexdigest(): 64 lower-case hex digits. */
  function HexDigest(d: Digest): (s: string)
    ensures |s| == 64 && IsHexString(s)
  {
    Hex(d)
  }
}
