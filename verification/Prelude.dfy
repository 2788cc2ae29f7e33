/** Types shared by every module: optional values, results, bytes and fixed-width byte strings. */
module Prelude {

  datatype Option<+T> = None | Some(value: T)

  datatype Result<+T, +E> = Ok(value: T) | Err(error: E)

  type byte = x: int | 0 <= x < 256

  type Bytes20 = s: seq<byte> | |s| == 20 witness seq(20, _ => 0)

  type Bytes32 = s: seq<byte> | |s| == 32 witness seq(32, _ => 0)

  /** Thirty-two bytes, as the number they spell with the most significant byte
      first: equal and ordered exactly as the byte strings are. */
  type Hash = n: nat | n < 0x1_0000_0000_0000_0000_0000_0000_0000_0000_0000_0000_0000_0000_0000_0000_0000_0000

  function Zeros(n: nat): (z: seq<byte>)
    ensures |z| == n
  {
    seq(n, _ => 0)
  }

  /** The top of Rust's `u64`. */
  const U64_MAX: nat := 0xFFFF_FFFF_FFFF_FFFF

  /** A total held in a `u64` that saturates. */
  function Capped(n: nat): nat {
    if n <= U64_MAX then n else U64_MAX
  }

  /** `u64::saturating_add`. */
  function SatAdd(a: nat, b: nat): nat {
    Capped(a + b)
  }

  /** `u64::saturating_sub`. */
  function SatSub(a: nat, b: nat): nat {
    if a >= b then a - b else 0
  }
}
