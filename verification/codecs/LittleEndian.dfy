/** Positional notation in base 256, least significant first. */
module LittleEndian {

  /** The number that a list of limbs denotes, least significant first; a limb may overflow a byte for a while. */
  function ValueLE(b: seq<int>): int {
    if b == [] then 0 else b[0] + 256 * ValueLE(b[1..])
  }
}
