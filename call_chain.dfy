/**
 * The two single-flight FIFO queues of www/js/ble-ftp.js: `call_chain` (one BLE operation at a
 * time) and `ftp_call_chain` (one whole file transfer at a time). Both are a list plus a busy
 * flag driven by a continuation, so one class models both; the session holds two instances.
 */
module CallChain {
  import opened Options

  /**
   * A queued entry. The source pushes functions; `call_chain_exec` checks `typeof next ===
   * 'function'` and stops the chain on anything else, so that branch is kept.
   */
  datatype Entry<U> = Callable(unit: U) | NotCallable

  /** The queue's state: the list and the busy flag. */
  datatype ChainState<U> = ChainState(pending: seq<Entry<U>>, busy: bool)

  /** The units of the callable entries, in queue order. */
  function Units<U>(es: seq<Entry<U>>): seq<U>
  {
    if es == [] then []
    else (if es[0].Callable? then [es[0].unit] else []) + Units(es[1..])
  }

  function OptionSeq<U>(o: Option<U>): seq<U>
  {
    if o.Some? then [o.value] else []
  }

  lemma {:induction false} UnitsAppend<U>(a: seq<Entry<U>>, b: seq<Entry<U>>)
    ensures Units(a + b) == Units(a) + Units(b)
  {
    if a == [] {
      assert a + b == b;
    } else {
      assert (a + b)[0] == a[0];
      assert (a + b)[1..] == a[1..] + b;
      UnitsAppend(a[1..], b);
    }
  }

  /**
   * `call_chain_exec`: shift the head and invoke it (busy), stop on a non-function (idle), or
   * go idle on an empty list. The second component is the unit invoked, if any. The unit
   * invoked, followed by the units still queued, are the units that were queued.
   */
  function ExecStep<U>(c: ChainState<U>): (r: (ChainState<U>, Option<U>))
    ensures OptionSeq(r.1) + Units(r.0.pending) == Units(c.pending)
    ensures r.0.busy <==> r.1.Some?
    ensures c.pending == [] ==> r.0.pending == []
    ensures c.pending != [] ==> r.0.pending == c.pending[1..]
  {
    if c.pending == [] then (ChainState([], false), None)
    else match c.pending[0]
      case Callable(u) => (ChainState(c.pending[1..], true), Some(u))
      case NotCallable => (ChainState(c.pending[1..], false), None)
  }

  /**
   * `call_chain_add`: append at the tail; start the chain only when it is not busy. Nothing is
   * invoked while a unit runs, and what is invoked plus what stays queued is the old queue
   * with the new entry at its end.
   */
  function AddStep<U>(c: ChainState<U>, e: Entry<U>): (r: (ChainState<U>, Option<U>))
    ensures c.busy ==> r == (ChainState(c.pending + [e], true), None)
    ensures OptionSeq(r.1) + Units(r.0.pending) == Units(c.pending) + Units([e])
    ensures !c.busy && c.pending == [] && e.Callable? ==> r == (ChainState([], true), Some(e.unit))
  {
    UnitsAppend(c.pending, [e]);
    var pushed := ChainState(c.pending + [e], c.busy);
    if c.busy then (pushed, None) else ExecStep(pushed)
  }

  /** What can happen to a queue: an `add` from any caller, or the running unit's continuation. */
  datatype Event<U> = Push(entry: Entry<U>) | Continue

  /** The idle, empty queue the source starts with (and `ble.disconnect` resets to). */
  function Idle<U>(): ChainState<U>
  {
    ChainState([], false)
  }

  /** One event applied to a queue: the new state and the unit invoked, if any. */
  function Step<U>(c: ChainState<U>, ev: Event<U>): (ChainState<U>, Option<U>)
  {
    match ev
    case Push(e) => AddStep(c, e)
    case Continue => ExecStep(c)
  }

  /** The queue after a sequence of events, with every unit invoked along the way, in order. */
  function Run<U>(c: ChainState<U>, events: seq<Event<U>>): (ChainState<U>, seq<U>)
  {
    if events == [] then (c, [])
    else
      var prev := Run(c, events[..|events| - 1]);
      var step := Step(prev.0, events[|events| - 1]);
      (step.0, prev.1 + OptionSeq(step.1))
  }

  /** Running one more event: the state after it, and the unit it invoked appended. */
  lemma RunSnoc<U>(c: ChainState<U>, events: seq<Event<U>>, ev: Event<U>)
    ensures Run(c, events + [ev]) == (Step(Run(c, events).0, ev).0, Run(c, events).1 + OptionSeq(Step(Run(c, events).0, ev).1))
  {
    assert (events + [ev])[..|events|] == events;
  }

  /** The entries pushed by a sequence of events, in order. */
  function Pushed<U>(events: seq<Event<U>>): seq<Entry<U>>
  {
    if events == [] then []
    else Pushed(events[..|events| - 1]) + if events[|events| - 1].Push? then [events[|events| - 1].entry] else []
  }

  /** How many continuations were called. */
  function Completions<U>(events: seq<Event<U>>): nat
  {
    if events == [] then 0
    else Completions(events[..|events| - 1]) + if events[|events| - 1].Continue? then 1 else 0
  }

  /**
   * A unit's continuation is called only by the unit that is running, once: every Continue
   * happens while the queue is busy.
   */
  ghost predicate WellBehaved<U>(events: seq<Event<U>>)
  {
    forall k :: 0 <= k < |events| && events[k].Continue? ==> Run(Idle(), events[..k]).0.busy
  }

  lemma StepKeepsFifo<U>(c: ChainState<U>, ev: Event<U>)
    ensures OptionSeq(Step(c, ev).1) + Units(Step(c, ev).0.pending)
      == Units(c.pending) + if ev.Push? then Units([ev.entry]) else []
  {
  }

  /**
   * FIFO: whatever callers push and however continuations interleave, the units invoked so far
   * followed by the units still queued are exactly the units pushed, in push order.
   */
  lemma {:induction false} RunIsFifo<U>(events: seq<Event<U>>)
    ensures Run(Idle(), events).1 + Units(Run(Idle(), events).0.pending) == Units(Pushed(events))
  {
    if events != [] {
      var init, last := events[..|events| - 1], events[|events| - 1];
      RunIsFifo(init);
      var prev := Run(Idle(), init);
      var step := Step(prev.0, last);
      var more := if last.Push? then [last.entry] else [];
      assert events == init + [last];
      RunSnoc(Idle(), init, last);
      assert Pushed(events) == Pushed(init) + more;
      StepKeepsFifo(prev.0, last);
      UnitsAppend(Pushed(init), more);
      assert Units(more) == if last.Push? then Units([last.entry]) else [];
      SeqAssoc(prev.1, OptionSeq(step.1), Units(step.0.pending));
      SeqAssoc(prev.1, Units(prev.0.pending), Units(more));
    }
  }

  lemma SeqAssoc<T>(a: seq<T>, b: seq<T>, c: seq<T>)
    ensures a + b + c == a + (b + c)
  {
  }

  lemma WellBehavedPrefix<U>(events: seq<Event<U>>, n: nat)
    requires n <= |events| && WellBehaved(events)
    ensures WellBehaved(events[..n])
  {
    forall k | 0 <= k < n && events[..n][k].Continue?
      ensures Run(Idle(), events[..n][..k]).0.busy
    {
      assert events[..n][..k] == events[..k];
    }
  }

  /**
   * Single flight: when continuations are called only by the running unit, the number of units
   * invoked is the number of continuations called, plus one while a unit is running. So unit
   * k+1 is never invoked before unit k has called its continuation. When every pushed entry is
   * a function, an idle queue is also an empty one.
   */
  lemma {:induction false} RunIsSingleFlight<U>(events: seq<Event<U>>)
    requires WellBehaved(events)
    ensures |Run(Idle(), events).1| == Completions(events) + if Run(Idle(), events).0.busy then 1 else 0
    ensures forall e :: e in Run(Idle(), events).0.pending ==> e in Pushed(events)
    ensures (forall e :: e in Pushed(events) ==> e.Callable?) && !Run(Idle(), events).0.busy ==>
      Run(Idle(), events).0.pending == []
  {
    if events != [] {
      var init, last := events[..|events| - 1], events[|events| - 1];
      WellBehavedPrefix(events, |events| - 1);
      RunIsSingleFlight(init);
      var prev := Run(Idle(), init);
      var step := Step(prev.0, last);
      assert Run(Idle(), events) == (step.0, prev.1 + OptionSeq(step.1));
      assert Completions(events) == Completions(init) + if last.Continue? then 1 else 0;
      var more := if last.Push? then [last.entry] else [];
      assert Pushed(events) == Pushed(init) + more;
      if last.Continue? {
        assert prev.0.busy;
      } else {
        assert last.entry in Pushed(events);
      }
      assert forall e :: e in step.0.pending ==> e in prev.0.pending + more;
    }
  }

  /**
   * The queue object: `call_chain`/`chain_busy` or `ftp_call_chain`/`ftp_chain_busy`.
   * `running` and `started` are ghost bookkeeping: the unit now running, and every unit
   * invoked so far.
   */
  class Chain<U> {
    var pending: seq<Entry<U>>
    var busy: bool
    ghost var running: Option<U>
    ghost var started: seq<U>

    ghost function State(): ChainState<U>
      reads this
    {
      ChainState(pending, busy)
    }

    /** Busy exactly when one unit is running, and that unit is the last one invoked. */
    ghost predicate Valid()
      reads this
    {
      && (busy <==> running.Some?)
      && (running.Some? ==> started != [] && running.value == started[|started| - 1])
    }

    constructor ()
      ensures Valid() && State() == Idle() && running == None && started == []
    {
      pending, busy := [], false;
      running, started := None, [];
    }

    /** `call_chain_exec`. */
    method Exec() returns (invoked: Option<U>)
      modifies this
      ensures Valid()
      ensures (State(), invoked) == ExecStep(old(State()))
      ensures running == invoked && started == old(started) + OptionSeq(invoked)
    {
      if |pending| > 0 {
        busy := true;
        var next := pending[0];
        pending := pending[1..];
        if next.Callable? {
          invoked := Some(next.unit);
        } else {
          busy := false;
          invoked := None;
        }
      } else {
        busy := false;
        invoked := None;
      }
      running := invoked;
      started := started + OptionSeq(invoked);
    }

    /** `call_chain_add`. */
    method Add(e: Entry<U>) returns (invoked: Option<U>)
      requires Valid()
      modifies this
      ensures Valid()
      ensures (State(), invoked) == AddStep(old(State()), e)
      ensures started == old(started) + OptionSeq(invoked)
      ensures old(busy) ==> running == old(running)
    {
      pending := pending + [e];
      if !busy {
        invoked := Exec();
      } else {
        invoked := None;
      }
    }

    /**
     * The continuation handed to the running unit (`next`): the unit calls it when it is done,
     * which runs `call_chain_exec` again.
     */
    method Next() returns (invoked: Option<U>)
      requires Valid() && running.Some?
      modifies this
      ensures Valid()
      ensures (State(), invoked) == ExecStep(old(State()))
      ensures started == old(started) + OptionSeq(invoked)
    {
      invoked := Exec();
    }

    /** The reset in `ble.disconnect`: the list emptied and the flag cleared; a running unit is abandoned. */
    method Clear()
      modifies this
      ensures Valid() && State() == Idle() && running == None && started == old(started)
    {
      pending, busy := [], false;
      running := None;
    }
  }
}
