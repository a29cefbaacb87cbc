/**
 * The fixed dimensions of the machine, as declared in unigma.h.
 */
module Layout {
  /** Three moving rotors: index 0 = right, 1 = middle, 2 = left. */
  const NUM_ROTORS := 3
  /** Three rotor wirings plus the reflector, which is the last entry. */
  const NUM_ROTOR_WIRINGS := 4
  /** Letters A..Z. */
  const ALPHABET_SIZE := 26
  /** Size of the plugboard buffer, terminator included. */
  const MAX_PLUGBOARD_LEN := 256
}
