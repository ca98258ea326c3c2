/** Values shared by every layer: bytes, 32-byte digests, ed25519 keys, and the outcome types
    that stand for the source's (value, error) returns. */
module Common {

  newtype uint8 = x: int | 0 <= x < 0x100
  type Bytes = seq<uint8>

  const DIGEST_SIZE := 32
  const KEY_SIZE := 32
  const SIGNATURE_SIZE := 64

  const ZERO_BYTES: Bytes :=
    [0, 0, 0, 0, 0, 0, 0, 0, 0, 0, 0, 0, 0, 0, 0, 0, 0, 0, 0, 0, 0, 0, 0, 0, 0, 0, 0, 0, 0, 0, 0, 0]

  type Bytes32 = b: Bytes | |b| == DIGEST_SIZE witness ZERO_BYTES

  /** A SHA-256 digest, or any opaque 32-byte reference. */
  datatype Hash = Hash(bytes: Bytes32)

  const ZERO_HASH: Hash := Hash(ZERO_BYTES)

  /** Keys and signatures arrive as slices of any length; the code pins their length itself. */
  type Key = Bytes
  type Signature = Bytes

  datatype Option<+T> = None | Some(value: T)

  datatype Result<+T, +E> = Ok(value: T) | Err(error: E)

  /** 2^64 and 2^63, the bounds of the source's fixed-width integers. */
  const TWO_64: nat := 0x1_0000_0000_0000_0000
  const TWO_63: nat := 0x8000_0000_0000_0000

  lemma SubsetSize<T>(a: set<T>, b: set<T>)
    requires a <= b
    ensures |a| <= |b|
  {
    assert b == a + (b - a);
  }

  lemma DisjointSize<T>(all: set<T>, a: set<T>, b: set<T>)
    requires forall x :: (x in all <==> x in a || x in b) && !(x in a && x in b)
    ensures |all| == |a| + |b|
  {
    assert all == a + b && a !! b;
  }
}
