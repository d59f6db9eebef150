/**
 The flag word that selects which shape of view a match result exposes.
 Flags are PHP integers; here they are their 64-bit two's-complement bit
 pattern, so PHP's `~` is bit-vector negation.
 */
module ResultTypes {

  type Flags = bv64

  /** Type bit: keep positional captures, renumbered from 0. */
  const Indexed: Flags := 1 << 0
  /** Type bit: keep named captures. */
  const Associative: Flags := 1 << 1
  /** Both type bits. */
  const Both: Flags := Indexed | Associative
  /** Modifier bit: each capture key appears in one category only. */
  const Strict: Flags := 1 << 3
  /** The type bits. */
  const TypeMask: Flags := Indexed | Associative
  /** Every recognised bit. */
  const AllFlags: Flags := TypeMask | Strict

  predicate SingleBit(f: Flags) {
    f != 0 && f & (f - 1) == 0
  }

  /** The bit layout of the constants. */
  lemma FlagLayout()
    ensures SingleBit(Indexed) && SingleBit(Associative) && SingleBit(Strict)
    ensures Indexed != Associative && Indexed & Associative == 0
    ensures Both == Indexed | Associative && Both == 3
    ensures TypeMask == Both
    ensures Strict == 8 && Strict & TypeMask == 0
    ensures AllFlags == TypeMask | Strict && AllFlags == 11
  {
  }
}
