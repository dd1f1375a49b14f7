# optional<T> as a verified two-state machine

This project models the libstdc++-style `std::optional` of `optional/optional.h`
(ISO/IEC 14882:2017, section 23.6). An optional is either Empty or Engaged, holding exactly one live value of `T`.
Its layers are modelled separately:

- `State` holds the abstract state `Opt<T> = Empty | Engaged(v)`. It also holds the event trace of
  `T`'s special members that an operation runs (`Constructed`, `Destroyed`, `Assigned`), and
  `Replay`, which checks that a trace is a legal lifecycle: nothing is constructed over a
  live value, and only the live value is destroyed or assigned.
- `Base` holds the unchecked primitives `_M_construct`, `_M_destruct`, `_M_reset`, `_M_get`
  and `_M_is_engaged`, plus the payload destructor.
- `Payload` holds the raw payload: the storage union and a separate engaged flag. `Valid` is the
  invariant that the flag is raised exactly when the union holds a live object. Each payload
  member keeps `Valid` and implements the matching `Base` primitive under the abstraction `Abs`.
- `Optional` holds the public class: constructors, assignments, `emplace`, `reset`, `swap`,
  `has_value`, `operator*`, `value` and `value_or`, plus `make_optional` and the free `swap`.
- `Relops` holds the 30 comparison operators. `T`'s six relational operators are a parameter,
  because the source calls `T`'s own `!=`, `<=`, `>`, `>=` rather than deriving them.
- `Hash` holds `hash<optional<T>>`. `T`'s hash is a parameter.
- `Lifecycle` holds arbitrary command sequences and whole lifetimes. Over any run, the number
  of `T` objects built minus the number destroyed equals the change in `has_value()`. Over a
  whole lifetime, every object built is destroyed exactly once.

`T`'s constructor from arguments is modelled by its effect, `Build<T> = Built(v) | Threw`.
This is how a throwing constructor in `emplace` leaves the optional Empty.

## Model

| member | source | states |
|---|---|---|
| Base.IsEngaged | optional/optional.h:277-280 | the flag is raised exactly when one live value is owned |
| Base.Get | optional/optional.h:282-295 | requires Engaged; returns the value the optional holds |
| Base.Construct | optional/optional.h:190-201 | requires Empty; a built value leaves it Engaged with that value and one construction; a throw leaves it Empty with nothing built; the trace is a legal lifecycle |
| Base.Destruct | optional/optional.h:203-208 | requires Engaged; leaves it Empty after destroying exactly the held value |
| Base.Reset | optional/optional.h:210-217 | no precondition; always leaves it Empty; destroys something iff it was Engaged; legal in either state |
| Base.Destroy | optional/optional.h:143-148 | the optional's destructor runs exactly one destruction, of the live value, when Engaged, and nothing when Empty |
| Base.ResetIdempotent | optional/optional.h:173-181 | a second reset destroys nothing and changes nothing |
| Payload.NewPayload | optional/optional.h:66-67 | a default payload keeps the flag/storage invariant and is Empty |
| Payload.InPlacePayload | optional/optional.h:69-72 | in-place construction keeps the invariant and is Engaged with the value |
| Payload.ConstructPayload | optional/optional.h:150-158 | keeps the invariant and refines Base.Construct; a throwing constructor leaves the payload unchanged, with the flag still down |
| Payload.DestructPayload | optional/optional.h:203-208 | keeps the invariant and refines Base.Destruct |
| Payload.ResetPayload | optional/optional.h:173-181 | keeps the invariant and refines Base.Reset; does nothing on a disengaged payload |
| Payload.GetPayload | optional/optional.h:160-171 | requires the flag raised; returns the abstract value |
| Payload.CopyPayload | optional/optional.h:89-101 | the copy keeps the invariant and has the same abstract state as the source |
| Payload.AssignPayload | optional/optional.h:103-133 | the four-case assignment keeps the invariant and leaves the target's abstract state equal to the source's |
| Optional.Default | optional/optional.h:534 | default construction is Empty, builds nothing |
| Optional.FromNullopt | optional/optional.h:536 | construction from nullopt is the same as default construction |
| Optional.FromValue | optional/optional.h:547-566 | construction from a value is Engaged with it, running exactly one special member of T: one construction |
| Optional.InPlace | optional/optional.h:624-636 | in-place construction is Engaged with the built value; it throws iff T's constructor does, and then nothing is built and the state is Empty |
| Optional.CopyConstruct | optional/optional.h:259-269 | a copy is Engaged iff the source is, with the same value; its trace is one construction when the source is Engaged and empty otherwise |
| Optional.ConvertConstruct | optional/optional.h:568-622 | converting construction mirrors the source's state and never throws when copying cannot |
| Optional.MakeOptional | optional/optional.h:1080-1092 | make_optional(x) is Engaged, and value() on it returns x |
| Optional.AssignNullopt | optional/optional.h:638-644 | assigning nullopt leaves it Empty through a legal lifecycle |
| Optional.AssignValue | optional/optional.h:646-663 | value assignment leaves it Engaged with the value, assigning into a live object and constructing into an empty one |
| Optional.AssignCopy | optional/optional.h:542-545 | copy/move assignment mirrors the source; the four cases run value assignment, construction, destruction or nothing |
| Optional.AssignConvert | optional/optional.h:665-710 | converting assignment mirrors the source through a legal lifecycle |
| Optional.Emplace | optional/optional.h:712-729 | emplace first destroys any held value, then constructs once; it is Engaged with the built value, which it returns, or Empty if the constructor threw |
| Optional.Reset | optional/optional.h:851-854 | reset() leaves it Empty, destroying exactly the held value if any |
| Optional.Swap | optional/optional.h:733-750 | swap exchanges the two states in all four cases |
| Optional.SwapFree | optional/optional.h:1068-1074 | the free swap exchanges its two arguments |
| Optional.HasValue | optional/optional.h:785-793 | has_value() and operator bool are true iff the optional is not Empty |
| Optional.Deref | optional/optional.h:765-783 | operator* requires Engaged and returns the held value |
| Optional.Value | optional/optional.h:795-827 | value() returns the held value iff Engaged, and otherwise signals bad_optional_access |
| Optional.ValueOr | optional/optional.h:829-850 | value_or(u) is the held value when Engaged, else u |
| Optional.EmptyingOperations | optional/optional.h:638-644 | default, nullopt construction, reset and nullopt assignment all give Empty; reset equals nullopt assignment; resetting again destroys nothing |
| Optional.EngagingOperations | optional/optional.h:712-719 | value construction, in-place construction, make_optional, value assignment and emplace all give Engaged(x), and value() then returns x |
| Optional.ConvertingAgreesWithCopying | optional/optional.h:575-580 | converting construction and assignment equal copy construction and assignment, trace included |
| Optional.SwapInvolution | optional/optional.h:741-749 | swapping twice restores both operands; engagement is exchanged |
| Optional.ValueOrAgreesWithValue | optional/optional.h:836-838 | value_or returns what value() returns, and returns the default exactly when value() signals |
| Relops.Equal | optional/optional.h:862-868 | == holds iff both Empty, or both Engaged with values equal under T's == |
| Relops.NotEqual | optional/optional.h:870-876 | != holds iff engagement differs, or both Engaged with values unequal under T's != |
| Relops.Less | optional/optional.h:878-883 | < holds iff rhs Engaged and lhs Empty, or both Engaged and lhs < rhs under T |
| Relops.Greater | optional/optional.h:885-890 | > holds iff lhs Engaged and rhs Empty, or both Engaged and lhs > rhs under T |
| Relops.LessEq | optional/optional.h:892-897 | <= holds iff lhs Empty, or both Engaged and lhs <= rhs under T |
| Relops.GreaterEq | optional/optional.h:899-904 | >= holds iff rhs Empty, or both Engaged and lhs >= rhs under T |
| Relops.EqualNull | optional/optional.h:907-912 | opt == nullopt iff opt is Empty |
| Relops.NullEqual | optional/optional.h:914-919 | nullopt == opt iff opt is Empty |
| Relops.NotEqualNull | optional/optional.h:921-926 | opt != nullopt iff opt is Engaged |
| Relops.NullNotEqual | optional/optional.h:928-933 | nullopt != opt iff opt is Engaged |
| Relops.LessNull | optional/optional.h:935-940 | opt < nullopt never holds |
| Relops.NullLess | optional/optional.h:942-947 | nullopt < opt iff opt is Engaged |
| Relops.GreaterNull | optional/optional.h:949-954 | opt > nullopt iff opt is Engaged |
| Relops.NullGreater | optional/optional.h:956-961 | nullopt > opt never holds |
| Relops.LessEqNull | optional/optional.h:963-968 | opt <= nullopt iff opt is Empty |
| Relops.NullLessEq | optional/optional.h:970-975 | nullopt <= opt always holds |
| Relops.GreaterEqNull | optional/optional.h:977-982 | opt >= nullopt always holds |
| Relops.NullGreaterEq | optional/optional.h:984-989 | nullopt >= opt iff opt is Empty |
| Relops.EqualValue | optional/optional.h:992-996 | opt == v agrees with opt == optional(v); false when opt is Empty |
| Relops.ValueEqual | optional/optional.h:998-1002 | v == opt agrees with optional(v) == opt; false when opt is Empty |
| Relops.NotEqualValue | optional/optional.h:1004-1008 | opt != v agrees with opt != optional(v); true when opt is Empty |
| Relops.ValueNotEqual | optional/optional.h:1010-1014 | v != opt agrees with optional(v) != opt; true when opt is Empty |
| Relops.LessValue | optional/optional.h:1016-1020 | opt < v agrees with opt < optional(v); an Empty opt is less than every v |
| Relops.ValueLess | optional/optional.h:1022-1026 | v < opt agrees with optional(v) < opt; false when opt is Empty |
| Relops.GreaterValue | optional/optional.h:1028-1032 | opt > v agrees with opt > optional(v); an Empty opt is never greater |
| Relops.ValueGreater | optional/optional.h:1034-1038 | v > opt agrees with optional(v) > opt; true when opt is Empty |
| Relops.LessEqValue | optional/optional.h:1040-1044 | opt <= v agrees with opt <= optional(v); true when opt is Empty |
| Relops.ValueLessEq | optional/optional.h:1046-1050 | v <= opt agrees with optional(v) <= opt; false when opt is Empty |
| Relops.GreaterEqValue | optional/optional.h:1052-1056 | opt >= v agrees with opt >= optional(v); an Empty opt is never >= a value |
| Relops.ValueGreaterEq | optional/optional.h:1058-1062 | v >= opt agrees with optional(v) >= opt; true when opt is Empty |
| Relops.NulloptIsEmpty | optional/optional.h:906-989 | for any operators of T, each nullopt comparison equals the optional comparison against an Empty optional |
| Relops.DerivedForms | optional/optional.h:870-904 | with T's operators conventional, optional == is identity, and !=, >, <=, >= are the forms derived from == and < |
| Relops.LessIsStrictTotal | optional/optional.h:878-883 | with T's operators conventional, optional < is irreflexive, transitive and total, with Empty least |
| Relops.EqualIsEquivalence | optional/optional.h:862-868 | if T's == is an equivalence, so is optional == |
| Relops.IntComparisons | optional/optional.h:861-904 | for optional<int>, the derived forms and transitivity hold, and Empty is <= every optional, and no optional is below it |
| Hash.ToSizeT | optional/optional.h:1112 | static_cast<size_t> of a signed value is congruent to it modulo 2^64 and lies in [0, 2^64); it fixes the disengaged hash MAGIC_DISENGAGED_HASH at size_t(-3333) |
| Hash.HashOf | optional/optional.h:1103-1115 | an Engaged optional hashes as its value under T's hash; an Empty one hashes to size_t(-3333) = 18446744073709548283 |
| Hash.HashRespectsEqual | optional/optional.h:1106-1114 | if T's hash agrees with T's ==, equal optionals hash alike |
| Hash.IntHashOfEmpty | optional/optional.h:1110-1113 | with the cast to size_t as int's hash (reduction modulo 2^64), the Empty hash differs from that of Engaged(0) but equals that of Engaged(-3333) |
| Lifecycle.Exec | optional/optional.h:638-729 | every modifier's trace is a legal lifecycle from the old state to the new |
| Lifecycle.RunIsLegal | optional/optional.h:638-729 | any sequence of modifiers is a legal lifecycle ending in its final state |
| Lifecycle.RunBalances | optional/optional.h:790-793 | over any run, objects built minus objects destroyed equals the change in has_value() |
| Lifecycle.Lifetime | optional/optional.h:143-148 | from any constructor that did not throw, through any run, to the destructor: a legal lifecycle in which every object built is destroyed |
| Lifecycle.EmplaceOverValue | optional/optional.h:712-719 | optional(x) then emplace(y) runs construct x, destroy x, construct y, then destroy y at the end |

## Left out

- The triviality specialisations (optional/optional.h:1-61, 228-494) are left out. These are the four `_Optional_base` variants and the trivially-destructible payload. They only choose trivial special members and have the same observable behaviour. One representation is modelled.
- The compile-time constraints are left out: `enable_if`, `__converts_from_optional`, `__assigns_from_optional`, the implicit/explicit overload pairs, the `static_assert`s and the deduction guide. They select overloads and do nothing at run time.
- The union storage is shown only as which member is active. Placement `new`, `addressof`, `operator->`, `noexcept` and the `&`/`&&`/`const&&` overload copies are left out. Each overload family is one function.
- Moves are modelled as copies, because the state of a moved-from `T` is up to `T`. No move-construction or move-assignment disengages its source.
- Conversions from `optional<U>`, construction and assignment from a value of type `U`, `value_or`'s argument, and comparisons against `optional<U>` or a `U` are modelled with `U = T`. The `initializer_list` overloads and `make_optional<T>(args...)` are the in-place construction `Optional.InPlace`, since the arguments reach `T`'s constructor.
- Only construction of `T` from arguments can throw in this model: in `_M_construct`, `emplace` and in-place construction. `T`'s copy and move constructors, assignments and `swap` are assumed not to throw. So a throw in the middle of a swap or an assignment is not modelled.
- `__throw_bad_optional_access` is the `BadOptionalAccess` outcome of `Optional.Value`. `hash<T>` is a parameter of `Hash.HashOf`. `__poison_hash` and `__is_fast_hash` are left out.
- `Hash.HashOf`: `size_t` is taken to be 64 bits wide.
- Optional.Emplace: the constructor arguments are assumed not to refer to the held value. The source resets (optional/optional.h:716) before it constructs from the arguments (optional/optional.h:717), so `o.emplace(*o)` would read a destroyed object, which is undefined behaviour; `Build<T>` is independent of the optional's state and cannot express that.
- `Optional.Swap` returns only the two final states. It does not return the trace of `T` members that `swap` runs.
- `Lifecycle.Run` covers the modifiers of one object. A command whose constructor throws is taken to be caught by the caller before the next command runs.
- `_M_destruct` lowers the flag before running the destructor (optional/optional.h:206-207). `Payload.DestructPayload` does the same, and `Base.Destruct` records only the end state.
