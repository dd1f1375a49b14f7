/** The public optional<T>: constructors, assignments, emplace, swap and the observers,
    each written as the composition of Base primitives that the class template performs.
    Converting operations from optional<U> or from a U, and value_or's argument, are
    modelled with U = T. Moves behave as copies: what a moved-from T holds is up to T,
    and no move here disengages its source. */
module Optional {
  import opened State
  import Base

  /** Outcome of the checked accessor: the value, or the bad_optional_access signal. */
  datatype Access<T> = Got(value: T) | BadOptionalAccess

  // Constructors. Each returns the new optional's state together with the special members
  // of T it ran, starting from raw (empty) storage.

  /** Default construction: disengaged, nothing built. */
  function Default<T>(): (r: Step<T>)
    ensures r.state == Empty && r.trace == [] && !r.threw
  {
    Step(Empty, [], false)
  }

  /** Construction from nullopt: the same as default construction. */
  function FromNullopt<T>(): (r: Step<T>)
    ensures r == Default()
  {
    Step(Empty, [], false)
  }

  /** Construction from a value: engaged, holding exactly one new copy of the value. */
  function FromValue<T>(x: T): (r: Step<T>)
    ensures r.state == Engaged(x) && !r.threw
    ensures Replay(Empty, r.trace) == Legal(r.state)
    ensures Net(r.trace) == 1 && |r.trace| == 1
  {
    Step(Engaged(x), [Constructed(x)], false)
  }

  /** In-place construction from constructor arguments, whose effect is `b`. When T's
      constructor throws, the exception escapes and no optional comes into being. */
  function InPlace<T>(b: Build<T>): (r: Step<T>)
    ensures r.threw <==> b.Threw?
    ensures b.Built? ==> r.state == Engaged(b.value)
    ensures b.Threw? ==> r.state == Empty && r.trace == []
    ensures |r.trace| == Live(r.state)
    ensures Replay(Empty, r.trace) == Legal(r.state)
  {
    Base.Construct(Empty, b)
  }

  /** Copy (and move) construction: engaged exactly when the source is, holding a copy of
      its value, built only when there is one to copy. */
  function CopyConstruct<T>(src: Opt<T>): (r: Step<T>)
    ensures r.state == src && !r.threw
    ensures Replay(Empty, r.trace) == Legal(r.state)
    ensures Net(r.trace) == Live(src) && |r.trace| == Live(src)
  {
    if src.Engaged? then Base.Construct(Empty, Built(src.v)) else Default()
  }

  /** Converting construction from another optional: default-construct, then emplace the
      source's value when it has one. */
  function ConvertConstruct<T>(src: Opt<T>): (r: Step<T>)
    ensures r.state == src && !r.threw
    ensures Replay(Empty, r.trace) == Legal(r.state)
  {
    if src.Engaged? then Emplace(Empty, Built(src.v)) else Default()
  }

  /** make_optional(x): an optional holding x. */
  function MakeOptional<T>(x: T): (r: Step<T>)
    ensures r.state == Engaged(x) && !r.threw
    ensures Value(r.state) == Got(x)
  {
    FromValue(x)
  }

  // Assignments and modifiers.

  /** Assigning nullopt resets. */
  function AssignNullopt<T>(o: Opt<T>): (r: Step<T>)
    ensures r.state == Empty && !r.threw
    ensures Replay(o, r.trace) == Legal(r.state)
  {
    Base.Reset(o)
  }

  /** Assigning a value: assign into the live object if engaged, otherwise construct. */
  function AssignValue<T>(o: Opt<T>, x: T): (r: Step<T>)
    ensures r.state == Engaged(x) && !r.threw
    ensures Replay(o, r.trace) == Legal(r.state)
    ensures o.Engaged? ==> r.trace == [Assigned(o.v, x)]
    ensures o.Empty? ==> r.trace == [Constructed(x)]
  {
    if Base.IsEngaged(o) then Step(Engaged(x), [Assigned(Base.Get(o), x)], false)
    else Base.Construct(o, Built(x))
  }

  /** Copy (and move) assignment between optionals of the same type, by the payload's
      four-case table. */
  function AssignCopy<T>(o: Opt<T>, src: Opt<T>): (r: Step<T>)
    ensures r.state == src && !r.threw
    ensures Replay(o, r.trace) == Legal(r.state)
    ensures o.Engaged? && src.Engaged? ==> r.trace == [Assigned(o.v, src.v)]
    ensures o.Empty? && src.Engaged? ==> r.trace == [Constructed(src.v)]
    ensures o.Engaged? && src.Empty? ==> r.trace == [Destroyed(o.v)]
    ensures o.Empty? && src.Empty? ==> r.trace == []
  {
    if Base.IsEngaged(o) && Base.IsEngaged(src) then
      Step(Engaged(src.v), [Assigned(Base.Get(o), Base.Get(src))], false)
    else if Base.IsEngaged(src) then
      Base.Construct(o, Built(Base.Get(src)))
    else
      Base.Reset(o)
  }

  /** Converting assignment from another optional: when the source is engaged, assign or
      construct as for a value; otherwise reset. */
  function AssignConvert<T>(o: Opt<T>, src: Opt<T>): (r: Step<T>)
    ensures r.state == src && !r.threw
    ensures Replay(o, r.trace) == Legal(r.state)
  {
    if src.Engaged? then
      if Base.IsEngaged(o) then Step(Engaged(src.v), [Assigned(Base.Get(o), src.v)], false)
      else Base.Construct(o, Built(src.v))
    else
      Base.Reset(o)
  }

  /** emplace: destroy the current value if any, then construct from the arguments, whose
      effect is `b`; the reference returned is to the newly built value. A throwing
      constructor leaves the optional empty. */
  function Emplace<T>(o: Opt<T>, b: Build<T>): (r: Step<T>)
    ensures r.threw <==> b.Threw?
    ensures b.Built? ==> r.state == Engaged(b.value) && Base.Get(r.state) == b.value
    ensures b.Threw? ==> r.state == Empty
    ensures r.trace == Base.Destroy(o) + (if b.Built? then [Constructed(b.value)] else [])
    ensures Replay(o, r.trace) == Legal(r.state)
  {
    var reset := Base.Reset(o);
    var built := Base.Construct(reset.state, b);
    ReplayAppend(o, reset.trace, built.trace);
    Step(built.state, reset.trace + built.trace, built.threw)
  }

  /** reset(): destroys the value if there is one. */
  function Reset<T>(o: Opt<T>): (r: Step<T>)
    ensures r.state == Empty && !r.threw
    ensures r.trace == Base.Destroy(o)
  {
    Base.Reset(o)
  }

  /** Member swap: both engaged, the values are exchanged; one engaged, its value is
      move-constructed into the other, which becomes engaged, and then destructed at home;
      neither, nothing happens. In every case the two states are exchanged. */
  function Swap<T>(a: Opt<T>, b: Opt<T>): (r: (Opt<T>, Opt<T>))
    ensures r.0 == b && r.1 == a
  {
    if Base.IsEngaged(a) && Base.IsEngaged(b) then
      (Engaged(Base.Get(b)), Engaged(Base.Get(a)))
    else if Base.IsEngaged(a) then
      (Base.Destruct(a).state, Base.Construct(b, Built(Base.Get(a))).state)
    else if Base.IsEngaged(b) then
      (Base.Construct(a, Built(Base.Get(b))).state, Base.Destruct(b).state)
    else
      (a, b)
  }

  /** The free swap(lhs, rhs) forwards to the member swap. */
  function SwapFree<T>(lhs: Opt<T>, rhs: Opt<T>): (r: (Opt<T>, Opt<T>))
    ensures r == (rhs, lhs)
  {
    Swap(lhs, rhs)
  }

  // Observers.

  /** has_value() and operator bool report the engaged flag. */
  function HasValue<T>(o: Opt<T>): (r: bool)
    ensures r <==> o != Empty
  {
    Base.IsEngaged(o)
  }

  /** operator*: unchecked access to the live value. */
  function Deref<T>(o: Opt<T>): (r: T)
    requires o.Engaged?
    ensures o == Engaged(r)
  {
    Base.Get(o)
  }

  /** value(): the live value, or the bad_optional_access signal on an empty optional. */
  function Value<T>(o: Opt<T>): (r: Access<T>)
    ensures r.Got? <==> o.Engaged?
    ensures r.Got? ==> o == Engaged(r.value)
  {
    if Base.IsEngaged(o) then Got(Base.Get(o)) else BadOptionalAccess
  }

  /** value_or(u): the live value, or u (converted to T) on an empty optional. */
  function ValueOr<T>(o: Opt<T>, u: T): (r: T)
    ensures o.Engaged? ==> o == Engaged(r)
    ensures o.Empty? ==> r == u
  {
    if Base.IsEngaged(o) then Base.Get(o) else u
  }

  // Properties relating the operations.

  /** Every way of making an optional empty yields the same state, with no object built;
      resetting an empty optional destroys nothing. */
  lemma EmptyingOperations<T>(o: Opt<T>)
    ensures Default<T>().state == Empty && FromNullopt<T>().state == Empty
    ensures Reset(o) == AssignNullopt(o)
    ensures Reset(Reset(o).state).trace == []
    ensures !HasValue(Reset(o).state) && Value(Reset(o).state) == BadOptionalAccess
  {
  }

  /** Every way of putting a value in an optional yields an engaged optional whose
      checked accessor returns that value. */
  lemma EngagingOperations<T>(o: Opt<T>, x: T)
    ensures FromValue(x).state == Engaged(x)
    ensures InPlace(Built(x)).state == Engaged(x)
    ensures MakeOptional(x).state == Engaged(x)
    ensures AssignValue(o, x).state == Engaged(x)
    ensures Emplace(o, Built(x)).state == Engaged(x)
    ensures Value(Emplace(o, Built(x)).state) == Got(x)
    ensures ValueOr(AssignValue(o, x).state, x) == x
  {
  }

  /** Converting construction and assignment behave exactly like copy construction and
      assignment, down to the special members of T they run. */
  lemma ConvertingAgreesWithCopying<T>(o: Opt<T>, src: Opt<T>)
    ensures ConvertConstruct(src) == CopyConstruct(src)
    ensures AssignConvert(o, src) == AssignCopy(o, src)
  {
    if src.Engaged? {
      assert [] + [Constructed(src.v)] == [Constructed(src.v)];
    }
  }

  /** Swapping twice restores both operands; swapping exchanges engagement. */
  lemma SwapInvolution<T>(a: Opt<T>, b: Opt<T>)
    ensures Swap(Swap(a, b).0, Swap(a, b).1) == (a, b)
    ensures HasValue(Swap(a, b).0) == HasValue(b) && HasValue(Swap(a, b).1) == HasValue(a)
  {
  }

  /** value_or agrees with value(): it returns the value when value() does, and the
      default exactly when value() signals. */
  lemma ValueOrAgreesWithValue<T>(o: Opt<T>, u: T)
    ensures Value(o).Got? ==> ValueOr(o, u) == Value(o).value
    ensures Value(o) == BadOptionalAccess ==> ValueOr(o, u) == u
  {
  }
}
