/**
 * Host-level vocabulary shared by every contract of the model: fixed-width
 * integers, bytes, addresses, optional values, the ledger clock and the
 * cryptographic/serialisation primitives the Soroban host provides.
 *
 * The primitives are function-valued fields of `Host`: the model never looks
 * inside SHA-256 or XDR, and nothing about them (in particular no
 * injectivity) is assumed.
 */
module Prims {

  const U32_LIMIT: int := 0x1_0000_0000
  const U64_LIMIT: int := 0x1_0000_0000_0000_0000

  type U32 = x: int | 0 <= x < U32_LIMIT
  type U64 = x: int | 0 <= x < U64_LIMIT

  type Byte = b: int | 0 <= b < 256
  type Bytes = seq<Byte>

  /** `BytesN<32>`: a SHA-256 digest, a certificate id, an evidence hash. */
  type Hash32 = s: Bytes | |s| == 32 witness seq(32, _ => 0)

  /** A Stellar address, compared by value. */
  datatype Address = Address(strkey: string)

  datatype Option<T> = None | Some(value: T)

  /** What `env.ledger()` reports during one invocation. */
  datatype Ledger = Ledger(timestamp: U64, sequence: U32)

  /**
   * The host functions the contracts call: `env.crypto().sha256` and the XDR
   * serialisation `to_xdr` of addresses and strings.
   */
  datatype Host = Host(
    sha256: Bytes -> Hash32,
    addressXdr: Address -> Bytes,
    stringXdr: string -> Bytes)

  /** The decimal digits of 1 to 10, as the contracts spell their small counters. */
  function Decimal(n: nat): (s: string)
    requires 1 <= n <= 10
    ensures 1 <= |s| <= 2
  {
    if n == 10 then "10" else [(48 + n) as char]
  }
}
