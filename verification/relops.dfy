/** The relational operators of optional: between two optionals, against nullopt, and
    against a bare value, on either side. Each operator on two optionals calls the matching
    operator of T (not one derived from == and <), so T's six operators are a parameter. */
module Relops {
  import opened State

  /** T's six relational operators, as the source calls them. */
  datatype Ops<!T> = Ops(
    eq: (T, T) -> bool, ne: (T, T) -> bool,
    lt: (T, T) -> bool, gt: (T, T) -> bool,
    le: (T, T) -> bool, ge: (T, T) -> bool)

  /** `lt` is irreflexive, transitive and total on distinct values. */
  ghost predicate StrictTotalOrder<T(!new)>(lt: (T, T) -> bool) {
    && (forall x :: !lt(x, x))
    && (forall x, y, z :: lt(x, y) && lt(y, z) ==> lt(x, z))
    && (forall x, y :: x != y ==> lt(x, y) || lt(y, x))
  }

  /** T's operators are the usual ones of a totally ordered value type: == is identity,
      < a strict total order, and the other four are derived from them. */
  ghost predicate Conventional<T(!new)>(ops: Ops<T>) {
    && (forall x, y :: ops.eq(x, y) <==> x == y)
    && (forall x, y :: ops.ne(x, y) <==> !ops.eq(x, y))
    && (forall x, y :: ops.gt(x, y) <==> ops.lt(y, x))
    && (forall x, y :: ops.le(x, y) <==> !ops.lt(y, x))
    && (forall x, y :: ops.ge(x, y) <==> !ops.lt(x, y))
    && StrictTotalOrder(ops.lt)
  }

  // Two optionals.

  /** Equal iff both are empty, or both engaged with values equal under T's ==. */
  function Equal<T>(ops: Ops<T>, a: Opt<T>, b: Opt<T>): (r: bool)
    ensures r <==> (a.Empty? && b.Empty?) || (a.Engaged? && b.Engaged? && ops.eq(a.v, b.v))
  {
    a.Engaged? == b.Engaged? && (a.Empty? || ops.eq(a.v, b.v))
  }

  /** Unequal iff their engagement differs, or both engaged with values unequal under T's !=. */
  function NotEqual<T>(ops: Ops<T>, a: Opt<T>, b: Opt<T>): (r: bool)
    ensures r <==> a.Engaged? != b.Engaged? || (a.Engaged? && b.Engaged? && ops.ne(a.v, b.v))
  {
    a.Engaged? != b.Engaged? || (a.Engaged? && ops.ne(a.v, b.v))
  }

  /** Less iff the right side is engaged and the left is empty or less under T's <. */
  function Less<T>(ops: Ops<T>, a: Opt<T>, b: Opt<T>): (r: bool)
    ensures r <==> (a.Empty? && b.Engaged?) || (a.Engaged? && b.Engaged? && ops.lt(a.v, b.v))
  {
    b.Engaged? && (a.Empty? || ops.lt(a.v, b.v))
  }

  /** Greater iff the left side is engaged and the right is empty or greater under T's >. */
  function Greater<T>(ops: Ops<T>, a: Opt<T>, b: Opt<T>): (r: bool)
    ensures r <==> (a.Engaged? && b.Empty?) || (a.Engaged? && b.Engaged? && ops.gt(a.v, b.v))
  {
    a.Engaged? && (b.Empty? || ops.gt(a.v, b.v))
  }

  /** At most iff the left side is empty, or both engaged and related by T's <=. */
  function LessEq<T>(ops: Ops<T>, a: Opt<T>, b: Opt<T>): (r: bool)
    ensures r <==> a.Empty? || (a.Engaged? && b.Engaged? && ops.le(a.v, b.v))
  {
    a.Empty? || (b.Engaged? && ops.le(a.v, b.v))
  }

  /** At least iff the right side is empty, or both engaged and related by T's >=. */
  function GreaterEq<T>(ops: Ops<T>, a: Opt<T>, b: Opt<T>): (r: bool)
    ensures r <==> b.Empty? || (a.Engaged? && b.Engaged? && ops.ge(a.v, b.v))
  {
    b.Empty? || (a.Engaged? && ops.ge(a.v, b.v))
  }

  // Against nullopt. Each compares the number of live values the optional holds with
  // nullopt's none, so nullopt is the least element and equals exactly the empty optional.

  function EqualNull<T>(a: Opt<T>): (r: bool)
    ensures r <==> 0 == Live(a)
  { a.Empty? }

  function NullEqual<T>(b: Opt<T>): (r: bool)
    ensures r <==> Live(b) == 0
  { b.Empty? }

  function NotEqualNull<T>(a: Opt<T>): (r: bool)
    ensures r <==> Live(a) != 0
  { a.Engaged? }

  function NullNotEqual<T>(b: Opt<T>): (r: bool)
    ensures r <==> 0 != Live(b)
  { b.Engaged? }

  function LessNull<T>(a: Opt<T>): (r: bool)
    ensures r <==> Live(a) < 0
  { false }

  function NullLess<T>(b: Opt<T>): (r: bool)
    ensures r <==> 0 < Live(b)
  { b.Engaged? }

  function GreaterNull<T>(a: Opt<T>): (r: bool)
    ensures r <==> Live(a) > 0
  { a.Engaged? }

  function NullGreater<T>(b: Opt<T>): (r: bool)
    ensures r <==> 0 > Live(b)
  { false }

  function LessEqNull<T>(a: Opt<T>): (r: bool)
    ensures r <==> Live(a) <= 0
  { a.Empty? }

  function NullLessEq<T>(b: Opt<T>): (r: bool)
    ensures r <==> 0 <= Live(b)
  { true }

  function GreaterEqNull<T>(a: Opt<T>): (r: bool)
    ensures r <==> Live(a) >= 0
  { true }

  function NullGreaterEq<T>(b: Opt<T>): (r: bool)
    ensures r <==> 0 >= Live(b)
  { b.Empty? }

  // Against a bare value of T. Each agrees, whatever T's operators, with the comparison
  // against an optional holding that value; an empty optional is less than every value.

  function EqualValue<T>(ops: Ops<T>, a: Opt<T>, x: T): (r: bool)
    ensures r == Equal(ops, a, Engaged(x))
    ensures a.Empty? ==> !r
  { a.Engaged? && ops.eq(a.v, x) }

  function ValueEqual<T>(ops: Ops<T>, x: T, b: Opt<T>): (r: bool)
    ensures r == Equal(ops, Engaged(x), b)
    ensures b.Empty? ==> !r
  { b.Engaged? && ops.eq(x, b.v) }

  function NotEqualValue<T>(ops: Ops<T>, a: Opt<T>, x: T): (r: bool)
    ensures r == NotEqual(ops, a, Engaged(x))
    ensures a.Empty? ==> r
  { a.Empty? || ops.ne(a.v, x) }

  function ValueNotEqual<T>(ops: Ops<T>, x: T, b: Opt<T>): (r: bool)
    ensures r == NotEqual(ops, Engaged(x), b)
    ensures b.Empty? ==> r
  { b.Empty? || ops.ne(x, b.v) }

  function LessValue<T>(ops: Ops<T>, a: Opt<T>, x: T): (r: bool)
    ensures r == Less(ops, a, Engaged(x))
    ensures a.Empty? ==> r
  { a.Empty? || ops.lt(a.v, x) }

  function ValueLess<T>(ops: Ops<T>, x: T, b: Opt<T>): (r: bool)
    ensures r == Less(ops, Engaged(x), b)
    ensures b.Empty? ==> !r
  { b.Engaged? && ops.lt(x, b.v) }

  function GreaterValue<T>(ops: Ops<T>, a: Opt<T>, x: T): (r: bool)
    ensures r == Greater(ops, a, Engaged(x))
    ensures a.Empty? ==> !r
  { a.Engaged? && ops.gt(a.v, x) }

  function ValueGreater<T>(ops: Ops<T>, x: T, b: Opt<T>): (r: bool)
    ensures r == Greater(ops, Engaged(x), b)
    ensures b.Empty? ==> r
  { b.Empty? || ops.gt(x, b.v) }

  function LessEqValue<T>(ops: Ops<T>, a: Opt<T>, x: T): (r: bool)
    ensures r == LessEq(ops, a, Engaged(x))
    ensures a.Empty? ==> r
  { a.Empty? || ops.le(a.v, x) }

  function ValueLessEq<T>(ops: Ops<T>, x: T, b: Opt<T>): (r: bool)
    ensures r == LessEq(ops, Engaged(x), b)
    ensures b.Empty? ==> !r
  { b.Engaged? && ops.le(x, b.v) }

  function GreaterEqValue<T>(ops: Ops<T>, a: Opt<T>, x: T): (r: bool)
    ensures r == GreaterEq(ops, a, Engaged(x))
    ensures a.Empty? ==> !r
  { a.Engaged? && ops.ge(a.v, x) }

  function ValueGreaterEq<T>(ops: Ops<T>, x: T, b: Opt<T>): (r: bool)
    ensures r == GreaterEq(ops, Engaged(x), b)
    ensures b.Empty? ==> r
  { b.Empty? || ops.ge(x, b.v) }

  // The three families agree.

  /** Comparing with nullopt is comparing with an empty optional, whatever T's operators. */
  lemma NulloptIsEmpty<T>(ops: Ops<T>, a: Opt<T>)
    ensures EqualNull(a) == Equal(ops, a, Empty) && NullEqual(a) == Equal(ops, Empty, a)
    ensures NotEqualNull(a) == NotEqual(ops, a, Empty) && NullNotEqual(a) == NotEqual(ops, Empty, a)
    ensures LessNull(a) == Less(ops, a, Empty) && NullLess(a) == Less(ops, Empty, a)
    ensures GreaterNull(a) == Greater(ops, a, Empty) && NullGreater(a) == Greater(ops, Empty, a)
    ensures LessEqNull(a) == LessEq(ops, a, Empty) && NullLessEq(a) == LessEq(ops, Empty, a)
    ensures GreaterEqNull(a) == GreaterEq(ops, a, Empty) && NullGreaterEq(a) == GreaterEq(ops, Empty, a)
  {
  }

  /** With conventional operators on T, the optional's != , >, <= and >= are the forms
      derived from its == and <, and its == is identity. */
  lemma DerivedForms<T(!new)>(ops: Ops<T>, a: Opt<T>, b: Opt<T>)
    requires Conventional(ops)
    ensures Equal(ops, a, b) <==> a == b
    ensures NotEqual(ops, a, b) == !Equal(ops, a, b)
    ensures Greater(ops, a, b) == Less(ops, b, a)
    ensures LessEq(ops, a, b) == !Less(ops, b, a)
    ensures GreaterEq(ops, a, b) == !Less(ops, a, b)
  {
  }

  /** With conventional operators on T, < on optionals is a strict total order with the
      empty optional as its least element. */
  lemma LessIsStrictTotal<T(!new)>(ops: Ops<T>, a: Opt<T>, b: Opt<T>, c: Opt<T>)
    requires Conventional(ops)
    ensures !Less(ops, a, a)
    ensures Less(ops, a, b) && Less(ops, b, c) ==> Less(ops, a, c)
    ensures a != b ==> Less(ops, a, b) || Less(ops, b, a)
    ensures LessEq(ops, Empty, a)
  {
  }

  /** When T's == is an equivalence, so is == on optionals. */
  lemma EqualIsEquivalence<T(!new)>(ops: Ops<T>, a: Opt<T>, b: Opt<T>, c: Opt<T>)
    requires forall x :: ops.eq(x, x)
    requires forall x, y :: ops.eq(x, y) ==> ops.eq(y, x)
    requires forall x, y, z :: ops.eq(x, y) && ops.eq(y, z) ==> ops.eq(x, z)
    ensures Equal(ops, a, a)
    ensures Equal(ops, a, b) ==> Equal(ops, b, a)
    ensures Equal(ops, a, b) && Equal(ops, b, c) ==> Equal(ops, a, c)
  {
  }

  /** The built-in operators of int. */
  function IntOps(): (ops: Ops<int>)
    ensures Conventional(ops)
  {
    Ops((x, y) => x == y, (x, y) => x != y,
        (x, y) => x < y, (x, y) => x > y,
        (x, y) => x <= y, (x, y) => x >= y)
  }

  /** For optional<int>: the derived forms, and the total order with empty least. */
  lemma IntComparisons(a: Opt<int>, b: Opt<int>, c: Opt<int>)
    ensures Equal(IntOps(), a, b) <==> a == b
    ensures NotEqual(IntOps(), a, b) == !Equal(IntOps(), a, b)
    ensures Greater(IntOps(), a, b) == Less(IntOps(), b, a)
    ensures LessEq(IntOps(), a, b) == !Less(IntOps(), b, a)
    ensures GreaterEq(IntOps(), a, b) == !Less(IntOps(), a, b)
    ensures Less(IntOps(), a, b) && Less(IntOps(), b, c) ==> Less(IntOps(), a, c)
    ensures LessEq(IntOps(), Empty, a) && !Less(IntOps(), a, Empty)
  {
    DerivedForms(IntOps(), a, b);
    LessIsStrictTotal(IntOps(), a, b, c);
  }
}
