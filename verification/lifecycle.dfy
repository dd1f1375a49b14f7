/** Whole lifetimes of an optional: any sequence of modifiers, from any constructor to the
    destructor. The engaged flag never drifts from the storage: the T objects built minus
    those destroyed always equals the number the flag says are live, and over a whole
    lifetime every object built is destroyed exactly once. */
module Lifecycle {
  import opened State
  import Base
  import Optional

  /** The modifiers of optional that act on one object. */
  datatype Command<T> =
    | ResetCmd
    | AssignNulloptCmd
    | AssignValueCmd(x: T)
    | AssignCopyCmd(src: Opt<T>)
    | AssignConvertCmd(src: Opt<T>)
    | EmplaceCmd(b: Build<T>)

  /** One command. */
  function Exec<T>(o: Opt<T>, c: Command<T>): (r: Step<T>)
    ensures Replay(o, r.trace) == Legal(r.state)
  {
    match c
    case ResetCmd => Optional.Reset(o)
    case AssignNulloptCmd => Optional.AssignNullopt(o)
    case AssignValueCmd(x) => Optional.AssignValue(o, x)
    case AssignCopyCmd(src) => Optional.AssignCopy(o, src)
    case AssignConvertCmd(src) => Optional.AssignConvert(o, src)
    case EmplaceCmd(b) => Optional.Emplace(o, b)
  }

  /** A run of commands, each one's exception (if any) caught by the caller before the next;
      the result gathers the final state and every special member of T run on the way. */
  function Run<T>(o: Opt<T>, cs: seq<Command<T>>): (r: Step<T>)
    decreases |cs|
  {
    if cs == [] then Step(o, [], false)
    else
      var first := Exec(o, cs[0]);
      var rest := Run(first.state, cs[1..]);
      Step(rest.state, first.trace + rest.trace, first.threw || rest.threw)
  }

  /** Every run is a legal lifecycle of T objects leading to its final state. */
  lemma {:induction false} RunIsLegal<T>(o: Opt<T>, cs: seq<Command<T>>)
    ensures Replay(o, Run(o, cs).trace) == Legal(Run(o, cs).state)
    decreases |cs|
  {
    if cs != [] {
      var first := Exec(o, cs[0]);
      RunIsLegal(first.state, cs[1..]);
      ReplayAppend(o, first.trace, Run(first.state, cs[1..]).trace);
    }
  }

  /** has_value() reflects the live objects: what a run builds minus what it destroys is
      the change in has_value(). */
  lemma RunBalances<T>(o: Opt<T>, cs: seq<Command<T>>)
    ensures Net(Run(o, cs).trace) == Live(Run(o, cs).state) - Live(o)
    ensures Optional.HasValue(Run(o, cs).state) <==> Live(o) + Net(Run(o, cs).trace) == 1
  {
    RunIsLegal(o, cs);
    ReplayBalances(o, Run(o, cs).trace, Run(o, cs).state);
  }

  /** A whole lifetime: the trace of a constructor that did not throw, a run of commands,
      the destructor. */
  function Lifetime<T>(start: Step<T>, cs: seq<Command<T>>): (trace: seq<Event<T>>)
    requires !start.threw
    requires Replay(Empty, start.trace) == Legal(start.state)
    ensures Replay(Empty, trace) == Legal(Empty)
    ensures Net(trace) == 0
  {
    var run := Run(start.state, cs);
    var tail := Base.Destroy(run.state);
    RunIsLegal(start.state, cs);
    ReplayAppend(start.state, run.trace, tail);
    ReplayAppend(Empty, start.trace, run.trace + tail);
    ReplayBalances(Empty, start.trace + (run.trace + tail), Empty);
    start.trace + (run.trace + tail)
  }

  /** For instance, an optional constructed from a value and then emplaced with another
      builds two objects and destroys two, the first before the second is built. */
  lemma EmplaceOverValue<T>(x: T, y: T)
    ensures Lifetime(Optional.FromValue(x), [EmplaceCmd(Built(y))])
         == [Constructed(x), Destroyed(x), Constructed(y), Destroyed(y)]
  {
    var cs := [EmplaceCmd(Built(y))];
    assert cs[1..] == [];
    assert Run(Engaged(x), cs).trace == [Destroyed(x), Constructed(y)];
  }
}
