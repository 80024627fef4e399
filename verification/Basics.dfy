/** Vocabulary shared by every module: machine widths, bytes, digests and results. */
module Basics {

  datatype Option<+T> = None | Some(value: T)

  datatype Result<+T, +E> = Ok(value: T) | Err(error: E)

  /** The largest object of a single upload, the most parts of an artifact or a file, and the size of each. */
  const MAX_OBJECT := 1024 * 1024 * 1024
  const MAX_PARTS := 10_000
  const VOID_CHUNK_SIZE := 16 * 1024 * 1024

  const U32_LIMIT := 0x1_0000_0000
  const U64_LIMIT := 0x1_0000_0000_0000_0000

  type U32 = n: nat | n < U32_LIMIT
  type U64 = n: nat | n < U64_LIMIT

  type Byte = n: nat | n < 256
  type Bytes = seq<Byte>

  /** SHA-256 (FIPS 180-4) is only ever compared for equality, so it is an arbitrary total function here. */
  type Digest = nat
  const Sha256: Bytes -> Digest

  /** Rust's `u64::saturating_add`. */
  function SaturatingAdd64(a: nat, b: nat): (r: nat)
    ensures a + b < U64_LIMIT ==> r == a + b
  {
    if a + b < U64_LIMIT then a + b else U64_LIMIT - 1
  }

  /** Rust's `u32::saturating_add(1)`. */
  function SaturatingInc32(a: U32): (r: U32)
    ensures a + 1 < U32_LIMIT ==> r == a + 1
  {
    if a + 1 < U32_LIMIT then a + 1 else a
  }
}
