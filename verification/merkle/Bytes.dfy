/** Byte strings, digests and what it means to exhibit a hash collision. */
module Bytes {

  type byte = b: int | 0 <= b < 256

  type Bytes = seq<byte>

  type Bytes32 = b: Bytes | |b| == 32 witness seq(32, _ => 0)

  datatype Digest = Digest(bytes: Bytes32)

  /** SHA-256 is a parameter of the whole model: any function from byte strings to 32 bytes. */
  type HashFn = Bytes -> Digest

  datatype Collision = Collision(x: Bytes, y: Bytes)

  predicate IsCollision(h: HashFn, c: Collision) {
    c.x != c.y && h(c.x) == h(c.y)
  }
}
