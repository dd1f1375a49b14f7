/** The abstract state of an optional<T>, and the lifecycle of the T objects it owns.

    An optional is a two-state machine: Empty, or Engaged holding exactly one live T.
    Every operation that runs one of T's special members (a constructor, the destructor,
    copy assignment) reports it as an Event, so that contracts can say not only which
    state an operation ends in but also which objects it built and destroyed on the way. */
module State {

  /** An optional holds nothing, or exactly one live value of T. */
  datatype Opt<T> = Empty | Engaged(v: T)

  /** What one of T's constructors did when run on some arguments: the arguments
      themselves are not modelled, only the value built or the fact that it threw. */
  datatype Build<T> = Built(value: T) | Threw

  /** A special member of T run on the stored object. */
  datatype Event<T> =
    | Constructed(value: T)
    | Destroyed(value: T)
    | Assigned(before: T, after: T)

  /** The result of a mutating operation (or of a constructor, starting from raw storage):
      the state it leaves, the special members of T it ran in order, and whether an
      exception thrown by T escaped it. */
  datatype Step<T> = Step(state: Opt<T>, trace: seq<Event<T>>, threw: bool)

  /** Replaying a trace either stays legal and reaches a state, or breaks the lifecycle rules. */
  datatype Replayed<T> = Legal(state: Opt<T>) | Illegal

  /** Number of live T objects an optional in state `o` owns. */
  function Live<T>(o: Opt<T>): nat {
    if o.Engaged? then 1 else 0
  }

  /** One special member, run on storage in state `o`: a constructor only on empty
      storage, the destructor and assignment only on the live object they name. */
  ghost function Apply<T>(o: Opt<T>, e: Event<T>): Replayed<T> {
    match e
    case Constructed(x) => if o.Empty? then Legal(Engaged(x)) else Illegal
    case Destroyed(x) => if o == Engaged(x) then Legal(Empty) else Illegal
    case Assigned(x, y) => if o == Engaged(x) then Legal(Engaged(y)) else Illegal
  }

  /** Runs a trace from state `o`, stopping at the first illegal event. */
  ghost function Replay<T>(o: Opt<T>, trace: seq<Event<T>>): Replayed<T>
    decreases |trace|
  {
    if trace == [] then Legal(o)
    else
      match Apply(o, trace[0])
      case Illegal => Illegal
      case Legal(s) => Replay(s, trace[1..])
  }

  /** Continues a replay with a further trace. */
  ghost function Then<T>(r: Replayed<T>, trace: seq<Event<T>>): Replayed<T> {
    match r
    case Illegal => Illegal
    case Legal(s) => Replay(s, trace)
  }

  /** Objects constructed minus objects destroyed by a trace. */
  ghost function Net<T>(trace: seq<Event<T>>): int
    decreases |trace|
  {
    if trace == [] then 0
    else
      (match trace[0]
       case Constructed(_) => 1
       case Destroyed(_) => -1
       case Assigned(_, _) => 0)
      + Net(trace[1..])
  }

  /** Replaying a concatenation is replaying its parts one after the other. */
  lemma {:induction false} ReplayAppend<T>(o: Opt<T>, a: seq<Event<T>>, b: seq<Event<T>>)
    ensures Replay(o, a + b) == Then(Replay(o, a), b)
    decreases |a|
  {
    if a == [] {
      assert a + b == b;
    } else {
      assert (a + b)[0] == a[0];
      assert (a + b)[1..] == a[1..] + b;
      match Apply(o, a[0])
      case Illegal =>
      case Legal(s) =>
        ReplayAppend(s, a[1..], b);
    }
  }

  /** A legal trace never leaks nor double-destroys: the objects it constructs minus those
      it destroys is exactly the change in the number of live objects. */
  lemma {:induction false} ReplayBalances<T>(o: Opt<T>, trace: seq<Event<T>>, s: Opt<T>)
    requires Replay(o, trace) == Legal(s)
    ensures Net(trace) == Live(s) - Live(o)
    decreases |trace|
  {
    if trace != [] {
      match Apply(o, trace[0])
      case Legal(m) =>
        ReplayBalances(m, trace[1..], s);
    }
  }
}
