/** The unchecked primitives that the public optional is built from: construct into empty
    storage, destruct a live value, reset from either state, and read the live value.
    All four triviality specialisations of the base class behave alike, so they are one here. */
module Base {
  import opened State

  /** Whether the optional holds a live value. */
  function IsEngaged<T>(o: Opt<T>): (r: bool)
    ensures r <==> Live(o) == 1
  {
    o.Engaged?
  }

  /** Reads the live value; meaningful only on an engaged optional. */
  function Get<T>(o: Opt<T>): (r: T)
    requires o.Engaged?
    ensures Engaged(r) == o
  {
    o.v
  }

  /** Builds a T in empty storage. The flag is raised only once the constructor has
      returned, so a throwing constructor leaves the storage empty. */
  function Construct<T>(o: Opt<T>, b: Build<T>): (r: Step<T>)
    requires o.Empty?
    ensures r.threw <==> b.Threw?
    ensures b.Built? ==> r.state == Engaged(b.value) && r.trace == [Constructed(b.value)]
    ensures b.Threw? ==> r.state == Empty && r.trace == []
    ensures Replay(o, r.trace) == Legal(r.state)
  {
    match b
    case Built(x) => Step(Engaged(x), [Constructed(x)], false)
    case Threw => Step(o, [], true)
  }

  /** Clears the flag and destroys the live value. */
  function Destruct<T>(o: Opt<T>): (r: Step<T>)
    requires o.Engaged?
    ensures r.state == Empty && !r.threw
    ensures r.trace == [Destroyed(o.v)]
    ensures Replay(o, r.trace) == Legal(r.state)
  {
    Step(Empty, [Destroyed(o.v)], false)
  }

  /** Destroys the live value if there is one; safe in either state. */
  function Reset<T>(o: Opt<T>): (r: Step<T>)
    ensures r.state == Empty && !r.threw
    ensures r.trace == [] <==> o.Empty?
    ensures |r.trace| == Live(o)
    ensures Replay(o, r.trace) == Legal(r.state)
  {
    if o.Engaged? then Destruct(o) else Step(o, [], false)
  }

  /** The destructor of the optional itself: the live value, if any, is destroyed. */
  function Destroy<T>(o: Opt<T>): (trace: seq<Event<T>>)
    ensures Replay(o, trace) == Legal(Empty)
    ensures Net(trace) + Live(o) == 0
    ensures |trace| == Live(o)
  {
    if o.Engaged? then [Destroyed(o.v)] else []
  }

  /** Resetting twice is resetting once: the second reset finds nothing to destroy. */
  lemma ResetIdempotent<T>(o: Opt<T>)
    ensures Reset(Reset(o).state) == Step(Empty, [], false)
  {
  }
}
