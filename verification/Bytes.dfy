/** Octets, and the packets made of them. */
module Bytes {
  type byte = b: int | 0 <= b < 256

  // The most pieces a packet may have.
  const MAX_TXSEGS: nat := 64
}
