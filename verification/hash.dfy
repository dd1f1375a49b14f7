/** hash<optional<T>>: an engaged optional hashes as its value does under T's hash; an
    empty one hashes to a fixed constant. size_t is taken to be 64 bits wide. */
module Hash {
  import opened State
  import Relops

  const SIZE_T_MODULUS: int := 0x1_0000_0000_0000_0000

  type SizeT = x: int | 0 <= x < SIZE_T_MODULUS

  /** static_cast<size_t> of a signed integer: reduction modulo 2^64. */
  function ToSizeT(x: int): (r: SizeT)
    ensures (r - x) % SIZE_T_MODULUS == 0
  {
    x % SIZE_T_MODULUS
  }

  /** The hash of every disengaged optional: size_t(-3333). */
  const MAGIC_DISENGAGED_HASH: SizeT := ToSizeT(-3333)

  /** Hash of an optional, given T's hash. */
  function HashOf<T>(h: T -> SizeT, o: Opt<T>): (r: SizeT)
    ensures o.Engaged? ==> r == h(o.v)
    ensures o.Empty? ==> r == 18446744073709548283
  {
    if o.Engaged? then h(o.v) else MAGIC_DISENGAGED_HASH
  }

  /** When T's hash agrees with T's ==, the optional's hash agrees with the optional's ==. */
  lemma HashRespectsEqual<T>(ops: Relops.Ops<T>, h: T -> SizeT, a: Opt<T>, b: Opt<T>)
    requires forall x, y :: ops.eq(x, y) ==> h(x) == h(y)
    requires Relops.Equal(ops, a, b)
    ensures HashOf(h, a) == HashOf(h, b)
  {
  }

  /** A hash for int: the cast to size_t, which is reduction modulo 2^64 (so -3333 maps to
      2^64 - 3333). */
  function IntHash(x: int): (r: SizeT)
    ensures 0 <= x < SIZE_T_MODULUS ==> r == x
  {
    ToSizeT(x)
  }

  /** For optional<int>, the disengaged hash differs from that of an optional holding 0,
      but coincides with that of an optional holding -3333. */
  lemma IntHashOfEmpty()
    ensures HashOf(IntHash, Empty) != HashOf(IntHash, Engaged(0))
    ensures HashOf(IntHash, Empty) == HashOf(IntHash, Engaged(-3333))
  {
  }
}
