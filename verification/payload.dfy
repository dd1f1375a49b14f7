/** The raw payload of a non-trivially-destructible optional: a union whose active member is
    either an empty byte or a T object, next to a separate engaged flag. Nothing in the
    representation ties the two together; `Valid` is the invariant the payload's members keep
    (the flag is raised exactly when the union holds a live T), and `Abs` reads the abstract
    state off a valid payload. Each member is shown to implement the matching Base primitive. */
module Payload {
  import opened State
  import Base

  /** The active member of the storage union. */
  datatype Storage<T> = EmptyByte | Object(value: T)

  datatype Payload<T> = Payload(storage: Storage<T>, engaged: bool)

  /** The flag is raised exactly when the union holds a live object. */
  predicate Valid<T>(p: Payload<T>) {
    p.engaged <==> p.storage.Object?
  }

  /** The abstract state of a valid payload. */
  function Abs<T>(p: Payload<T>): Opt<T>
    requires Valid(p)
  {
    if p.engaged then Engaged(p.storage.value) else Empty
  }

  /** Default construction activates the empty byte and leaves the flag at false. */
  function NewPayload<T>(): (r: Payload<T>)
    ensures Valid(r) && Abs(r) == Empty
  {
    Payload(EmptyByte, false)
  }

  /** In-place construction builds the object and raises the flag. */
  function InPlacePayload<T>(x: T): (r: Payload<T>)
    ensures Valid(r) && Abs(r) == Engaged(x)
  {
    Payload(Object(x), true)
  }

  /** Placement-constructs into storage whose flag is down; the flag is raised only after
      the constructor returns, so a throwing constructor leaves the payload as it was. */
  function ConstructPayload<T>(p: Payload<T>, b: Build<T>): (r: Payload<T>)
    requires Valid(p) && !p.engaged
    ensures Valid(r)
    ensures Abs(r) == Base.Construct(Abs(p), b).state
    ensures b.Threw? ==> r == p
  {
    match b
    case Built(x) => Payload(Object(x), true)
    case Threw => p
  }

  /** Lowers the flag, then destroys the object. */
  function DestructPayload<T>(p: Payload<T>): (r: Payload<T>)
    requires Valid(p) && p.engaged
    ensures Valid(r)
    ensures Abs(r) == Base.Destruct(Abs(p)).state
  {
    var lowered := p.(engaged := false);
    lowered.(storage := EmptyByte)
  }

  /** Destructs only when the flag is raised. */
  function ResetPayload<T>(p: Payload<T>): (r: Payload<T>)
    requires Valid(p)
    ensures Valid(r)
    ensures Abs(r) == Base.Reset(Abs(p)).state
    ensures !p.engaged ==> r == p
  {
    if p.engaged then DestructPayload(p) else p
  }

  /** Reads the object; unchecked, the flag must be raised. */
  function GetPayload<T>(p: Payload<T>): (r: T)
    requires Valid(p) && p.engaged
    ensures r == Base.Get(Abs(p))
  {
    p.storage.value
  }

  /** Copy (and move) construction: start disengaged, construct from the source's object
      only when the source's flag is raised. */
  function CopyPayload<T>(other: Payload<T>): (r: Payload<T>)
    requires Valid(other)
    ensures Valid(r) && Abs(r) == Abs(other)
  {
    var empty := NewPayload();
    if other.engaged then ConstructPayload(empty, Built(GetPayload(other))) else empty
  }

  /** Copy (and move) assignment, by the four cases of the two flags: both raised, assign
      object to object; only the source's, construct; only the target's, reset; neither,
      nothing. */
  function AssignPayload<T>(p: Payload<T>, other: Payload<T>): (r: Payload<T>)
    requires Valid(p) && Valid(other)
    ensures Valid(r) && Abs(r) == Abs(other)
    ensures p.engaged && other.engaged ==> r.engaged
    ensures !p.engaged && !other.engaged ==> r == p
  {
    if p.engaged && other.engaged then
      p.(storage := Object(GetPayload(other)))
    else if other.engaged then
      ConstructPayload(p, Built(GetPayload(other)))
    else
      ResetPayload(p)
  }
}
