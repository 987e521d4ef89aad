/**
 The two implementations of the state-machine facade
 (crates/core/src/state/machine.rs and adapter_statig.rs).
 */
module Machines {
  import opened Wrappers
  import opened Lifecycle

  type Verdict = Result<State, TransitionError>

  /** The state a machine holds after an event with this verdict. */
  function After(s: State, v: Verdict): State {
    if v.Success? then v.value else s
  }

  class BareMachine {
    var state: State

    constructor (initial: State)
      ensures state == initial
    {
      state := initial;
    }

    method Apply(e: Event) returns (r: Verdict)
      modifies this
      ensures r == NextState(old(state), e)
      ensures state == After(old(state), r)
    {
      r := NextState(state, e);
      if r.Success? {
        state := r.value;
      }
    }
  }

  /**
   `inner` is the state of the statig machine, which always starts in `Draft`; `shadow` is the
   state callers see.
   */
  class StatigAdapter {
    var inner: State
    var shadow: State

    constructor (initial: State)
      ensures Contents() == AdapterStart(initial)
    {
      inner := Draft;
      shadow := initial;
    }

    function Contents(): Adapter
      reads this
    {
      Adapter(inner, shadow)
    }

    /** statig's dispatch: a leaf asks the table, and an unhandled event dies in the superstate. */
    method Handle(e: Event)
      modifies this`inner
      ensures inner == After(old(inner), NextState(old(inner), e))
    {
      var r := NextState(inner, e);
      if r.Success? {
        inner := r.value;
      }
    }

    method Apply(e: Event) returns (r: Verdict)
      modifies this
      ensures (Contents(), r) == AdapterStep(old(Contents()), e)
    {
      r := NextState(shadow, e);
      if r.Success? {
        if inner == shadow {
          Handle(e);
        }
        shadow := r.value;
      }
    }
  }

  // ---------------------------------------------------------------------------
  // Runs
  // ---------------------------------------------------------------------------

  datatype Adapter = Adapter(inner: State, shadow: State)

  function AdapterStart(initial: State): Adapter {
    Adapter(Draft, initial)
  }

  function AdapterStep(a: Adapter, e: Event): (Adapter, Verdict) {
    var r := NextState(a.shadow, e);
    if r.Failure? then (a, r)
    else
      var inner := if a.inner == a.shadow then After(a.inner, NextState(a.inner, e)) else a.inner;
      (Adapter(inner, r.value), r)
  }

  function AdapterRun(a: Adapter, events: seq<Event>): (Adapter, seq<Verdict>)
    decreases |events|
  {
    if events == [] then (a, [])
    else
      var (a', r) := AdapterStep(a, events[0]);
      var (end, rs) := AdapterRun(a', events[1..]);
      (end, [r] + rs)
  }

  function BareRun(s: State, events: seq<Event>): (State, seq<Verdict>)
    decreases |events|
  {
    if events == [] then (s, [])
    else
      var r := NextState(s, events[0]);
      var (end, rs) := BareRun(After(s, r), events[1..]);
      (end, [r] + rs)
  }

  /** Events that moved the machine to another state. */
  function Moves(s: State, events: seq<Event>): nat
    decreases |events|
  {
    if events == [] then 0
    else
      var s' := After(s, NextState(s, events[0]));
      (if s' == s then 0 else 1) + Moves(s', events[1..])
  }

  /** From adapter states where the inner machine follows the shadow, or the shadow ran ahead of a fresh one. */
  lemma {:induction false} ParityFrom(a: Adapter, events: seq<Event>)
    requires a.inner == a.shadow || (a.inner == Draft && a.shadow != Draft)
    ensures AdapterRun(a, events).0.shadow == BareRun(a.shadow, events).0
    ensures AdapterRun(a, events).1 == BareRun(a.shadow, events).1
    ensures AdapterRun(a, events).0.inner
         == if a.inner == a.shadow then AdapterRun(a, events).0.shadow else Draft
    decreases |events|
  {
    if events != [] {
      var (a', r) := AdapterStep(a, events[0]);
      if r.Success? {
        EdgesClimb(a.shadow, events[0]);
      }
      ParityFrom(a', events[1..]);
    }
  }

  /**
   For every start and every event sequence the two machines return the same verdicts and end in
   the same state. The inner statig machine equals the shadow when the start is `Draft`, and never
   leaves `Draft` otherwise.
   */
  lemma Parity(initial: State, events: seq<Event>)
    ensures var (end, rs) := AdapterRun(AdapterStart(initial), events);
            && (end.shadow, rs) == BareRun(initial, events)
            && end.inner == (if initial == Draft then end.shadow else Draft)
  {
    ParityFrom(AdapterStart(initial), events);
  }

  /** Rank never falls over a run, and each move costs at least one rank: at most five moves. */
  lemma {:induction false} RunsClimb(s: State, events: seq<Event>)
    ensures Moves(s, events) + Rank(s) <= Rank(BareRun(s, events).0)
    ensures Moves(s, events) <= 5
    decreases |events|
  {
    if events != [] {
      var r := NextState(s, events[0]);
      if r.Success? {
        EdgesClimb(s, events[0]);
      }
      RunsClimb(After(s, r), events[1..]);
    }
  }
}
