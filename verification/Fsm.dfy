/**
 * The finite state machine engine of looplab/fsm.
 *
 * Callbacks are opaque: `C` names a callback, `A` is the argument list of an event,
 * and an oracle gives, slot by slot, what the callback did to the event record.
 * Callbacks do not call back into the machine.
 */
module Fsm {
  import opened Common

  datatype EventDesc = EventDesc(name: string, src: seq<string>, dst: string)

  datatype EdgeKey = EdgeKey(event: string, src: string)

  type Table = map<EdgeKey, string>

  datatype CallbackType = BeforeEvent | LeaveState | EnterState | AfterEvent

  datatype CallbackKey = CallbackKey(target: string, kind: CallbackType)

  /** The fixed part of the record handed to callbacks. */
  datatype Edge<A> = Edge(event: string, src: string, dst: string, args: A)

  /** The record handed to callbacks, with what they may set. */
  datatype EventInfo<A> = EventInfo(edge: Edge<A>, err: Option<string>, canceled: bool, async: bool)

  /** The eight moments at which a callback may run. */
  datatype Slot =
    BeforeNamed | BeforeAny | LeaveNamed | LeaveAny | EnterNamed | EnterAny | AfterNamed | AfterAny
  {
    /** The moments after the state has changed, too late to stop the event. */
    predicate Final() {
      EnterNamed? || EnterAny? || AfterNamed? || AfterAny?
    }

    function Key<A>(e: Edge<A>): CallbackKey {
      match this
      case BeforeNamed => CallbackKey(e.event, BeforeEvent)
      case BeforeAny => CallbackKey("", BeforeEvent)
      case LeaveNamed => CallbackKey(e.src, LeaveState)
      case LeaveAny => CallbackKey("", LeaveState)
      case EnterNamed => CallbackKey(e.dst, EnterState)
      case EnterAny => CallbackKey("", EnterState)
      case AfterNamed => CallbackKey(e.event, AfterEvent)
      case AfterAny => CallbackKey("", AfterEvent)
    }
  }

  /** What one callback did to the event record: Cancel, Async, and an assignment to Err. */
  datatype Effect = Effect(cancel: bool, async: bool, setErr: Option<Option<string>>)

  const NO_EFFECT := Effect(false, false, None)

  type Oracle = Slot -> Effect

  function Apply<A>(f: Effect, e: EventInfo<A>): EventInfo<A> {
    e.(canceled := e.canceled || f.cancel,
       async := e.async || f.async,
       err := if f.setErr.Some? then f.setErr.value else e.err)
  }

  datatype Call<C, A> = Call(slot: Slot, callback: C, info: EventInfo<A>)

  datatype EventResult =
    | Done(err: Option<string>)
    | InTransition
    | InvalidEvent
    | UnknownEvent
    | Canceled(err: Option<string>)
    | NoTransition(err: Option<string>)
    | Async(err: Option<string>)
    | Internal
    | NotInTransition

  datatype Fired<C, A> = Fired(info: EventInfo<A>, calls: seq<Call<C, A>>, stopped: bool)

  /** A before-callback stops the event by cancelling it, a leave-callback also by asking for Async. */
  predicate Stops<A>(s: Slot, e: EventInfo<A>) {
    match s
    case BeforeNamed | BeforeAny => e.canceled
    case LeaveNamed | LeaveAny => e.canceled || e.async
    case _ => false
  }

  /** Runs the registered callbacks of `slots` in order, up to the first that stops the event. */
  function Fire<C, A>(cbs: map<CallbackKey, C>, slots: seq<Slot>, e: EventInfo<A>, o: Oracle): Fired<C, A> {
    if slots == [] then Fired(e, [], false)
    else
      var k := slots[0].Key(e.edge);
      if k !in cbs then Fire(cbs, slots[1..], e, o)
      else
        var e' := Apply(o(slots[0]), e);
        var call := Call(slots[0], cbs[k], e);
        if Stops(slots[0], e') then Fired(e', [call], true)
        else
          var rest := Fire(cbs, slots[1..], e', o);
          rest.(calls := [call] + rest.calls)
  }

  const BEFORE: seq<Slot> := [BeforeNamed, BeforeAny]
  const LEAVE: seq<Slot> := [LeaveNamed, LeaveAny]
  const ENTER: seq<Slot> := [EnterNamed, EnterAny]
  const AFTER: seq<Slot> := [AfterNamed, AfterAny]

  datatype Machine<C, A> =
    Machine(table: Table, callbacks: map<CallbackKey, C>, current: string, pending: Option<EventInfo<A>>)
  {
    predicate HasEdge(event: string, src: string, dst: string) {
      EdgeKey(event, src) in table && table[EdgeKey(event, src)] == dst
    }

    /** A pending transition is an edge that leaves the current state. */
    predicate WellFormed() {
      pending.Some? ==>
        && pending.value.edge.src == current
        && pending.value.edge.dst != current
        && HasEdge(pending.value.edge.event, current, pending.value.edge.dst)
    }

    predicate Can(event: string) {
      EdgeKey(event, current) in table && pending.None?
    }

    predicate Defines(event: string) {
      exists k :: k in table && k.event == event
    }
  }

  datatype Step<C, A> = Step(machine: Machine<C, A>, result: EventResult, calls: seq<Call<C, A>>)

  /** The meaning of Event. */
  ghost function EventStep<C, A>(m: Machine<C, A>, event: string, args: A, o: Oracle): Step<C, A> {
    if m.pending.Some? then Step(m, InTransition, [])
    else if EdgeKey(event, m.current) !in m.table then
      Step(m, if m.Defines(event) then InvalidEvent else UnknownEvent, [])
    else
      var edge := Edge(event, m.current, m.table[EdgeKey(event, m.current)], args);
      var before := Fire(m.callbacks, BEFORE, EventInfo(edge, None, false, false), o);
      if before.stopped then Step(m, Canceled(before.info.err), before.calls)
      else if edge.dst == m.current then
        var after := Fire(m.callbacks, AFTER, before.info, o);
        Step(m, NoTransition(after.info.err), before.calls + after.calls)
      else
        var leave := Fire(m.callbacks, LEAVE, before.info, o);
        var calls := before.calls + leave.calls;
        if leave.stopped && leave.info.canceled then Step(m, Canceled(leave.info.err), calls)
        else if leave.stopped then Step(m.(pending := Some(leave.info)), Async(leave.info.err), calls)
        else
          var done := Fire(m.callbacks, ENTER + AFTER, leave.info, o);
          Step(m.(current := edge.dst), Done(done.info.err), calls + done.calls)
  }

  /** The meaning of Transition; without a pending transition it is refused. */
  ghost function TransitionStep<C, A>(m: Machine<C, A>, o: Oracle): Step<C, A> {
    if m.pending.None? then Step(m, NotInTransition, [])
    else
      var e := m.pending.value;
      var done := Fire(m.callbacks, ENTER + AFTER, e, o);
      Step(m.(current := e.edge.dst, pending := None), Done(None), done.calls)
  }

  // ---------------------------------------------------------------------------------------
  // Callback order

  /** A callback that is due, and the callback that was made. */
  datatype Due<C, A> = Due(slot: Slot, callback: C, edge: Edge<A>)

  /** The registered callbacks of `slots`, in that order. */
  function AllDue<C, A>(cbs: map<CallbackKey, C>, slots: seq<Slot>, edge: Edge<A>): seq<Due<C, A>> {
    if slots == [] then [] else OneDue(cbs, slots[0], edge) + AllDue(cbs, slots[1..], edge)
  }

  function OneDue<C, A>(cbs: map<CallbackKey, C>, slot: Slot, edge: Edge<A>): seq<Due<C, A>> {
    if slot.Key(edge) in cbs then [Due(slot, cbs[slot.Key(edge)], edge)] else []
  }

  function Made<C, A>(calls: seq<Call<C, A>>): seq<Due<C, A>> {
    seq(|calls|, i requires 0 <= i < |calls| => Due(calls[i].slot, calls[i].callback, calls[i].info.edge))
  }

  lemma MadeAppend<C, A>(c1: seq<Call<C, A>>, c2: seq<Call<C, A>>)
    ensures Made(c1 + c2) == Made(c1) + Made(c2)
  {
    assert forall i :: 0 <= i < |c1| + |c2| ==> Made(c1 + c2)[i] == (Made(c1) + Made(c2))[i];
  }

  lemma {:induction false} AllDueAppend<C, A>(cbs: map<CallbackKey, C>, s1: seq<Slot>, s2: seq<Slot>, edge: Edge<A>)
    ensures AllDue(cbs, s1 + s2, edge) == AllDue(cbs, s1, edge) + AllDue(cbs, s2, edge)
  {
    if s1 == [] {
      assert s1 + s2 == s2;
    } else {
      AllDueAppend(cbs, s1[1..], s2, edge);
      assert (s1 + s2)[1..] == s1[1..] + s2;
      Associates(OneDue(cbs, s1[0], edge), AllDue(cbs, s1[1..], edge), AllDue(cbs, s2, edge));
    }
  }

  lemma {:induction false} FirePrefix<C, A>(cbs: map<CallbackKey, C>, slots: seq<Slot>, e: EventInfo<A>, o: Oracle)
    ensures var f := Fire(cbs, slots, e, o);
            && f.info.edge == e.edge
            && Made(f.calls) <= AllDue(cbs, slots, e.edge)
            && (!f.stopped ==> Made(f.calls) == AllDue(cbs, slots, e.edge))
  {
    if slots != [] {
      var e' := Apply(o(slots[0]), e);
      FirePrefix(cbs, slots[1..], e, o);
      FirePrefix(cbs, slots[1..], e', o);
      if slots[0].Key(e.edge) in cbs && !Stops(slots[0], e') {
        MadeAppend([Call(slots[0], cbs[slots[0].Key(e.edge)], e)], Fire(cbs, slots[1..], e', o).calls);
      }
    }
  }

  lemma {:induction false} FinalNeverStops<C, A>(cbs: map<CallbackKey, C>, slots: seq<Slot>, e: EventInfo<A>, o: Oracle)
    requires forall s :: s in slots ==> s.Final()
    ensures !Fire(cbs, slots, e, o).stopped
  {
    if slots != [] {
      assert slots[0] in slots;
      FinalNeverStops(cbs, slots[1..], e, o);
      FinalNeverStops(cbs, slots[1..], Apply(o(slots[0]), e), o);
    }
  }

  /** Dispatching calls a prefix of what is registered, all of it unless a callback stops it; final slots never stop. */
  lemma FireOrder<C, A>(cbs: map<CallbackKey, C>, slots: seq<Slot>, e: EventInfo<A>, o: Oracle)
    ensures var f := Fire(cbs, slots, e, o);
            && f.info.edge == e.edge
            && Made(f.calls) <= AllDue(cbs, slots, e.edge)
            && (!f.stopped ==> Made(f.calls) == AllDue(cbs, slots, e.edge))
            && ((forall s :: s in slots ==> s.Final()) ==> !f.stopped)
  {
    FirePrefix(cbs, slots, e, o);
    if forall s :: s in slots ==> s.Final() {
      FinalNeverStops(cbs, slots, e, o);
    }
  }

  /**
   * A completed event calls every registered callback once, in the documented order; a cancelled or held
   * one calls an initial part of them; one that stays in its state skips the leave and enter callbacks.
   */
  lemma CallbackOrder<C, A>(m: Machine<C, A>, event: string, args: A, o: Oracle)
    requires m.Can(event)
    ensures var edge := Edge(event, m.current, m.table[EdgeKey(event, m.current)], args);
            var s := EventStep(m, event, args, o);
            && (s.result.Done? ==> Made(s.calls) == AllDue(m.callbacks, BEFORE + LEAVE + (ENTER + AFTER), edge))
            && (s.result.NoTransition? ==> Made(s.calls) == AllDue(m.callbacks, BEFORE + AFTER, edge))
            && (s.result.Canceled? || s.result.Async? ==> Made(s.calls) <= AllDue(m.callbacks, BEFORE + LEAVE, edge))
  {
    var cbs := m.callbacks;
    var edge := Edge(event, m.current, m.table[EdgeKey(event, m.current)], args);
    var e0 := EventInfo(edge, None, false, false);
    FireOrder(cbs, BEFORE, e0, o);
    var before := Fire(cbs, BEFORE, e0, o);
    FireOrder(cbs, AFTER, before.info, o);
    FireOrder(cbs, LEAVE, before.info, o);
    var leave := Fire(cbs, LEAVE, before.info, o);
    FireOrder(cbs, ENTER + AFTER, leave.info, o);
    MadeAppend(before.calls, Fire(cbs, AFTER, before.info, o).calls);
    MadeAppend(before.calls, leave.calls);
    MadeAppend(before.calls + leave.calls, Fire(cbs, ENTER + AFTER, leave.info, o).calls);
    AllDueAppend(cbs, BEFORE, LEAVE, edge);
    AllDueAppend(cbs, BEFORE, AFTER, edge);
    AllDueAppend(cbs, BEFORE + LEAVE, ENTER + AFTER, edge);
  }

  /** The callbacks registered under some keys, in that order. */
  function Found<C>(cbs: map<CallbackKey, C>, keys: seq<CallbackKey>): seq<C> {
    if keys == [] then [] else (if keys[0] in cbs then [cbs[keys[0]]] else []) + Found(cbs, keys[1..])
  }

  function Callees<C, A>(dues: seq<Due<C, A>>): seq<C> {
    seq(|dues|, i requires 0 <= i < |dues| => dues[i].callback)
  }

  function KeysOf<A>(slots: seq<Slot>, edge: Edge<A>): seq<CallbackKey> {
    seq(|slots|, i requires 0 <= i < |slots| => slots[i].Key(edge))
  }

  lemma {:induction false} DueAreFound<C, A>(cbs: map<CallbackKey, C>, slots: seq<Slot>, edge: Edge<A>)
    ensures Callees(AllDue(cbs, slots, edge)) == Found(cbs, KeysOf(slots, edge))
    decreases |slots|
  {
    if slots != [] {
      DueAreFound(cbs, slots[1..], edge);
      assert KeysOf(slots, edge)[1..] == KeysOf(slots[1..], edge);
      assert Callees(AllDue(cbs, slots, edge)) ==
             Callees(OneDue(cbs, slots[0], edge)) + Callees(AllDue(cbs, slots[1..], edge));
    }
  }

  /** The keys under which the callbacks of an event are registered, in the documented order. */
  function DocumentedKeys(event: string, src: string, dst: string): seq<CallbackKey> {
    [ CallbackKey(event, BeforeEvent), CallbackKey("", BeforeEvent),
      CallbackKey(src, LeaveState), CallbackKey("", LeaveState),
      CallbackKey(dst, EnterState), CallbackKey("", EnterState),
      CallbackKey(event, AfterEvent), CallbackKey("", AfterEvent) ]
  }

  lemma DocumentedOrder<C, A>(cbs: map<CallbackKey, C>, edge: Edge<A>)
    ensures Callees(AllDue(cbs, BEFORE + LEAVE + (ENTER + AFTER), edge)) ==
            Found(cbs, DocumentedKeys(edge.event, edge.src, edge.dst))
  {
    var slots := BEFORE + LEAVE + (ENTER + AFTER);
    DueAreFound(cbs, slots, edge);
    assert slots == [BeforeNamed, BeforeAny, LeaveNamed, LeaveAny, EnterNamed, EnterAny, AfterNamed, AfterAny];
    assert KeysOf(slots, edge) == DocumentedKeys(edge.event, edge.src, edge.dst);
  }

  /** A completed event calls exactly the callbacks registered under the documented keys, in the documented order. */
  lemma CompletedCalls<C, A>(m: Machine<C, A>, event: string, args: A, o: Oracle)
    requires m.Can(event) && EventStep(m, event, args, o).result.Done?
    ensures Callees(Made(EventStep(m, event, args, o).calls)) ==
            Found(m.callbacks, DocumentedKeys(event, m.current, m.table[EdgeKey(event, m.current)]))
  {
    CallbackOrder(m, event, args, o);
    DocumentedOrder(m.callbacks, Edge(event, m.current, m.table[EdgeKey(event, m.current)], args));
  }

  // ---------------------------------------------------------------------------------------
  // When an event is cancelled or held

  /** What the callback registered under a key does; nothing if there is none. */
  function Does<C>(cbs: map<CallbackKey, C>, key: CallbackKey, o: Oracle, slot: Slot): Effect {
    if key in cbs then o(slot) else NO_EFFECT
  }

  /** The effects of the four callbacks that come before the state changes. */
  datatype Early = Early(beforeNamed: Effect, beforeAny: Effect, leaveNamed: Effect, leaveAny: Effect,
                         hasLeaveNamed: bool, hasLeaveAny: bool)
  {
    predicate BeforeCancels() {
      beforeNamed.cancel || beforeAny.cancel
    }

    /** Some callback up to the named leave callback asked for an asynchronous transition. */
    predicate Asked() {
      beforeNamed.async || beforeAny.async || leaveNamed.async
    }

    /** The first callback that stops the event cancels it. */
    predicate Cancels(moves: bool) {
      BeforeCancels() || (moves && (leaveNamed.cancel || (leaveAny.cancel && !(hasLeaveNamed && Asked()))))
    }

    /** The first callback that stops the event is a leave callback that does not cancel it. */
    predicate Holds(moves: bool) {
      && !BeforeCancels() && moves && !leaveNamed.cancel
      && ((hasLeaveNamed && Asked()) || (hasLeaveAny && !leaveAny.cancel && (Asked() || leaveAny.async)))
    }
  }

  function EarlyOf<C>(cbs: map<CallbackKey, C>, event: string, src: string, o: Oracle): Early {
    Early(Does(cbs, CallbackKey(event, BeforeEvent), o, BeforeNamed), Does(cbs, CallbackKey("", BeforeEvent), o, BeforeAny),
          Does(cbs, CallbackKey(src, LeaveState), o, LeaveNamed), Does(cbs, CallbackKey("", LeaveState), o, LeaveAny),
          CallbackKey(src, LeaveState) in cbs, CallbackKey("", LeaveState) in cbs)
  }

  lemma FireLast<C, A>(cbs: map<CallbackKey, C>, b: Slot, e: EventInfo<A>, o: Oracle)
    ensures var f := Fire(cbs, [b], e, o);
            var e1 := if b.Key(e.edge) in cbs then Apply(o(b), e) else e;
            f.info == e1 && (f.stopped <==> b.Key(e.edge) in cbs && Stops(b, e1))
  {
    assert [b][1..] == [];
  }

  lemma FireTwo<C, A>(cbs: map<CallbackKey, C>, a: Slot, b: Slot, e: EventInfo<A>, o: Oracle)
    ensures var f := Fire(cbs, [a, b], e, o);
            var e1 := if a.Key(e.edge) in cbs then Apply(o(a), e) else e;
            var e2 := if b.Key(e.edge) in cbs then Apply(o(b), e1) else e1;
            if a.Key(e.edge) in cbs && Stops(a, e1) then f.stopped && f.info == e1
            else f.info == e2 && (f.stopped <==> b.Key(e.edge) in cbs && Stops(b, e2))
  {
    assert [a, b][1..] == [b];
    FireLast(cbs, b, if a.Key(e.edge) in cbs then Apply(o(a), e) else e, o);
  }

  lemma BeforeOutcome<C, A>(cbs: map<CallbackKey, C>, edge: Edge<A>, o: Oracle)
    ensures var e := EarlyOf(cbs, edge.event, edge.src, o);
            var f := Fire(cbs, BEFORE, EventInfo(edge, None, false, false), o);
            && (f.stopped <==> e.BeforeCancels())
            && (!f.stopped ==> f.info.edge == edge && !f.info.canceled
                               && f.info.async == (e.beforeNamed.async || e.beforeAny.async))
  {
    FireTwo(cbs, BeforeNamed, BeforeAny, EventInfo(edge, None, false, false), o);
  }

  lemma LeaveOutcome<C, A>(cbs: map<CallbackKey, C>, info: EventInfo<A>, o: Oracle)
    requires !info.canceled
    ensures var e := EarlyOf(cbs, info.edge.event, info.edge.src, o);
            var f := Fire(cbs, LEAVE, info, o);
            var asked := info.async || e.leaveNamed.async;
            var held := e.hasLeaveNamed && (e.leaveNamed.cancel || asked);
            && (f.stopped && f.info.canceled <==> e.leaveNamed.cancel || (e.leaveAny.cancel && !held))
            && (f.stopped && !f.info.canceled <==>
                !e.leaveNamed.cancel && (held || (e.hasLeaveAny && !e.leaveAny.cancel && (asked || e.leaveAny.async))))
  {
    FireTwo(cbs, LeaveNamed, LeaveAny, info, o);
  }

  /**
   * For any table, any callbacks and whatever they do: an event that can occur is Canceled exactly when the first
   * callback that stops it cancels it, Async exactly when that is a leave callback that does not, and otherwise
   * completes, or does nothing if it leads back to its state. Only Async leaves a transition pending. An event
   * that cannot occur is unknown exactly when no edge has its name.
   */
  lemma OutcomeIff<C, A>(m: Machine<C, A>, event: string, args: A, o: Oracle)
    ensures var s := EventStep(m, event, args, o);
            && (s.result.UnknownEvent? <==> m.pending.None? && forall k :: k in m.table ==> k.event != event)
            && (m.Can(event) ==>
                  var moves := m.table[EdgeKey(event, m.current)] != m.current;
                  var e := EarlyOf(m.callbacks, event, m.current, o);
                  && (s.result.Canceled? <==> e.Cancels(moves))
                  && (s.result.Async? <==> e.Holds(moves))
                  && (s.result.NoTransition? <==> !moves && !e.BeforeCancels())
                  && (s.result.Done? <==> moves && !e.Cancels(moves) && !e.Holds(moves))
                  && (s.machine.pending.Some? <==> s.result.Async?))
  {
    if m.Can(event) {
      var edge := Edge(event, m.current, m.table[EdgeKey(event, m.current)], args);
      BeforeOutcome(m.callbacks, edge, o);
      var before := Fire(m.callbacks, BEFORE, EventInfo(edge, None, false, false), o);
      if !before.stopped {
        LeaveOutcome(m.callbacks, before.info, o);
      }
    }
  }

  /** The error set last by the callbacks that were called. */
  function LastError<C, A>(calls: seq<Call<C, A>>, o: Oracle, err: Option<string>): Option<string> {
    if calls == [] then err
    else LastError(calls[1..], o, if o(calls[0].slot).setErr.Some? then o(calls[0].slot).setErr.value else err)
  }

  lemma {:induction false} LastErrorAppend<C, A>(a: seq<Call<C, A>>, b: seq<Call<C, A>>, o: Oracle, err: Option<string>)
    ensures LastError(a + b, o, err) == LastError(b, o, LastError(a, o, err))
    decreases |a|
  {
    if a == [] {
      assert a + b == b;
    } else {
      assert (a + b)[1..] == a[1..] + b;
      LastErrorAppend(a[1..], b, o, if o(a[0].slot).setErr.Some? then o(a[0].slot).setErr.value else err);
    }
  }

  lemma {:induction false} FireError<C, A>(cbs: map<CallbackKey, C>, slots: seq<Slot>, e: EventInfo<A>, o: Oracle)
    ensures Fire(cbs, slots, e, o).info.err == LastError(Fire(cbs, slots, e, o).calls, o, e.err)
    decreases |slots|
  {
    if slots != [] {
      FireError(cbs, slots[1..], e, o);
      FireError(cbs, slots[1..], Apply(o(slots[0]), e), o);
      var f := Fire(cbs, slots, e, o);
      assert f.calls != [] && slots[0].Key(e.edge) in cbs ==> f.calls[0].slot == slots[0];
    }
  }

  /** Every result that carries an error carries the one set last by a callback that was called. */
  lemma ErrorReported<C, A>(m: Machine<C, A>, event: string, args: A, o: Oracle)
    requires m.Can(event)
    ensures var s := EventStep(m, event, args, o);
            (s.result.Done? || s.result.Canceled? || s.result.NoTransition? || s.result.Async?) &&
            s.result.err == LastError(s.calls, o, None)
  {
    var cbs := m.callbacks;
    var e0 := EventInfo(Edge(event, m.current, m.table[EdgeKey(event, m.current)], args), None, false, false);
    FireError(cbs, BEFORE, e0, o);
    var before := Fire(cbs, BEFORE, e0, o);
    FireError(cbs, AFTER, before.info, o);
    FireError(cbs, LEAVE, before.info, o);
    var leave := Fire(cbs, LEAVE, before.info, o);
    FireError(cbs, ENTER + AFTER, leave.info, o);
    LastErrorAppend(before.calls, Fire(cbs, AFTER, before.info, o).calls, o, None);
    LastErrorAppend(before.calls, leave.calls, o, None);
    LastErrorAppend(before.calls + leave.calls, Fire(cbs, ENTER + AFTER, leave.info, o).calls, o, None);
  }

  /** Completing a held transition calls the enter callbacks of its state and the after callbacks of its event. */
  lemma TransitionCalls<C, A>(m: Machine<C, A>, o: Oracle)
    ensures var s := TransitionStep(m, o);
            && (s.result.NotInTransition? <==> m.pending.None?)
            && (m.pending.Some? ==>
                  var edge := m.pending.value.edge;
                  Callees(Made(s.calls)) == Found(m.callbacks, DocumentedKeys(edge.event, edge.src, edge.dst)[4..]))
  {
    if m.pending.Some? {
      var edge, slots := m.pending.value.edge, ENTER + AFTER;
      FireOrder(m.callbacks, slots, m.pending.value, o);
      DueAreFound(m.callbacks, slots, edge);
      assert KeysOf(slots, edge) == DocumentedKeys(edge.event, edge.src, edge.dst)[4..];
    }
  }

  // ---------------------------------------------------------------------------------------
  // One step

  /** The state moves only with a nil-class result, along the table's edge; every refusal keeps it. */
  lemma EventMoves<C, A>(m: Machine<C, A>, event: string, args: A, o: Oracle)
    requires m.WellFormed()
    ensures var s := EventStep(m, event, args, o);
            && s.machine.WellFormed()
            && s.machine.table == m.table && s.machine.callbacks == m.callbacks
            && !s.result.Internal? && !s.result.NotInTransition?
            && (s.result.Done? <==> s.machine.current != m.current)
            && (s.result.Done? ==> m.HasEdge(event, m.current, s.machine.current) && s.machine.pending.None?)
            && (s.result.InTransition? <==> m.pending.Some?)
            && (s.result.InTransition? || s.result.InvalidEvent? || s.result.UnknownEvent? <==> !m.Can(event))
            && (s.result.Async? ==>
                  && s.machine.pending.Some?
                  && s.machine.pending.value.edge.event == event
                  && s.machine.pending.value.edge.args == args)
            && (!s.result.Async? && !s.result.Done? ==> s.machine == m)
            && (s.result.NoTransition? ==> m.HasEdge(event, m.current, m.current))
  {
    if m.Can(event) {
      var e0 := EventInfo(Edge(event, m.current, m.table[EdgeKey(event, m.current)], args), None, false, false);
      FireOrder(m.callbacks, BEFORE, e0, o);
      FireOrder(m.callbacks, LEAVE, Fire(m.callbacks, BEFORE, e0, o).info, o);
    }
  }

  // ---------------------------------------------------------------------------------------
  // Whole runs

  datatype Op<A> = Raise(event: string, args: A, o: Oracle) | Complete(o: Oracle)

  ghost function OpStep<C, A>(m: Machine<C, A>, op: Op<A>): Step<C, A> {
    match op
    case Raise(event, args, o) => EventStep(m, event, args, o)
    case Complete(o) => TransitionStep(m, o)
  }

  /** The machines passed through by a run, the first included. */
  ghost function Run<C, A>(m: Machine<C, A>, ops: seq<Op<A>>): (ms: seq<Machine<C, A>>)
    ensures |ms| == |ops| + 1 && ms[0] == m
    decreases |ops|
  {
    if ops == [] then [m] else [m] + Run(OpStep(m, ops[0]).machine, ops[1..])
  }

  predicate OneEdge<C, A>(m: Machine<C, A>, from: string, to: string) {
    exists k :: k in m.table && k.src == from && m.table[k] == to
  }

  /** Consecutive machines of a run have the same table and states joined by one of its edges, or equal. */
  ghost predicate Walks<C, A>(m: Machine<C, A>, ms: seq<Machine<C, A>>) {
    && (forall i :: 0 <= i < |ms| ==> ms[i].table == m.table && ms[i].WellFormed())
    && (forall i, j :: 0 <= i && j == i + 1 < |ms| ==>
          ms[j].current == ms[i].current || OneEdge(m, ms[i].current, ms[j].current))
  }

  /** Whatever is raised and whatever the callbacks do, a run walks along edges of the event table. */
  lemma {:induction false} RunFollowsEdges<C, A>(m: Machine<C, A>, ops: seq<Op<A>>)
    requires m.WellFormed()
    ensures Walks(m, Run(m, ops))
    decreases |ops|
  {
    if ops != [] {
      var s := OpStep(m, ops[0]);
      match ops[0] {
        case Raise(event, args, o) =>
          EventMoves(m, event, args, o);
          assert s.result.Done? ==> EdgeKey(event, m.current) in m.table;
        case Complete(o) =>
          assert m.pending.Some? ==> EdgeKey(m.pending.value.edge.event, m.current) in m.table;
      }
      RunFollowsEdges(s.machine, ops[1..]);
      var ms, rest := Run(m, ops), Run(s.machine, ops[1..]);
      assert forall i :: 0 <= i < |rest| ==> ms[1..][i] == rest[i];
      forall i, j | 0 <= i && j == i + 1 < |ms|
        ensures ms[j].current == ms[i].current || OneEdge(m, ms[i].current, ms[j].current)
      {
        if i > 0 {
          assert ms[i] == rest[i - 1] && ms[j] == rest[j - 1];
        }
      }
    }
  }

  /**
   * After an Async result every event is refused and nothing changes, for as long as Transition is
   * not called; Transition then completes exactly the edge that was held, and frees the machine.
   */
  lemma {:induction false} AsyncHolds<C, A>(m: Machine<C, A>, event: string, args: A, o: Oracle, ops: seq<Op<A>>, last: Oracle)
    requires m.WellFormed()
    requires EventStep(m, event, args, o).result.Async?
    requires forall op :: op in ops ==> op.Raise?
    ensures var held := EventStep(m, event, args, o).machine;
            && held.current == m.current
            && (forall i :: 0 <= i <= |ops| ==> Run(held, ops)[i] == held)
            && (forall i :: 0 <= i < |ops| ==> OpStep(held, ops[i]) == Step(held, InTransition, []))
            && var freed := TransitionStep(held, last).machine;
               && freed.current == m.table[EdgeKey(event, m.current)]
               && freed.pending.None?
  {
    EventMoves(m, event, args, o);
    var held := EventStep(m, event, args, o).machine;
    HeldRun(held, ops);
  }

  lemma {:induction false} HeldRun<C, A>(held: Machine<C, A>, ops: seq<Op<A>>)
    requires held.pending.Some?
    requires forall op :: op in ops ==> op.Raise?
    ensures forall i :: 0 <= i <= |ops| ==> Run(held, ops)[i] == held
  {
    if ops != [] {
      assert ops[0] in ops;
      HeldRun(held, ops[1..]);
    }
  }

  // ---------------------------------------------------------------------------------------
  // Construction

  /** The destination an event list gives to a key: that of the last definition that mentions it. */
  function LastDefinition(events: seq<EventDesc>, key: EdgeKey): Option<string> {
    if events == [] then None
    else
      var e := events[|events| - 1];
      if e.name == key.event && key.src in e.src then Some(e.dst)
      else LastDefinition(events[..|events| - 1], key)
  }

  ghost predicate TableOf(t: Table, events: seq<EventDesc>) {
    forall k :: (k in t <==> LastDefinition(events, k).Some?)
             && (k in t ==> LastDefinition(events, k) == Some(t[k]))
  }

  /** The states an event list mentions; a definition without sources mentions none. */
  function StatesOf(events: seq<EventDesc>): set<string> {
    if events == [] then {}
    else
      var e := events[|events| - 1];
      StatesOf(events[..|events| - 1]) + if e.src == [] then {} else (set s | s in e.src) + {e.dst}
  }

  function NamesOf(events: seq<EventDesc>): set<string> {
    set e | e in events :: e.name
  }

  /** Where a callback name is filed, if anywhere. */
  function Parse(states: set<string>, names: set<string>, name: string): Option<CallbackKey> {
    if "before_" <= name then
      Filed(name[7..], "event", names, BeforeEvent)
    else if "leave_" <= name then
      Filed(name[6..], "state", states, LeaveState)
    else if "enter_" <= name then
      Filed(name[6..], "state", states, EnterState)
    else if "after_" <= name then
      Filed(name[6..], "event", names, AfterEvent)
    else if name in states then Some(CallbackKey(name, EnterState))
    else if name in names then Some(CallbackKey(name, AfterEvent))
    else None
  }

  function Filed(target: string, any: string, known: set<string>, kind: CallbackType): Option<CallbackKey> {
    if target == any then Some(CallbackKey("", kind))
    else if target in known then Some(CallbackKey(target, kind))
    else None
  }

  /**
   * Every callback whose name parses is filed under its key. Which one, when two names share a key,
   * is up to the iteration order of the callback map.
   */
  lemma PrefixedName(p: string, t: string)
    ensures p <= p + t && (p + t)[|p|..] == t
  {
  }

  /**
   * The documented names. A prefix and a target file the callback under that target, "event" or "state" under
   * every target, and a target that is neither under none.
   */
  lemma PrefixedNames(states: set<string>, names: set<string>, t: string)
    ensures Parse(states, names, "before_" + t) ==
            if t == "event" then Some(CallbackKey("", BeforeEvent))
            else if t in names then Some(CallbackKey(t, BeforeEvent)) else None
    ensures Parse(states, names, "leave_" + t) ==
            if t == "state" then Some(CallbackKey("", LeaveState))
            else if t in states then Some(CallbackKey(t, LeaveState)) else None
    ensures Parse(states, names, "enter_" + t) ==
            if t == "state" then Some(CallbackKey("", EnterState))
            else if t in states then Some(CallbackKey(t, EnterState)) else None
    ensures Parse(states, names, "after_" + t) ==
            if t == "event" then Some(CallbackKey("", AfterEvent))
            else if t in names then Some(CallbackKey(t, AfterEvent)) else None
  {
    PrefixedName("before_", t);
    PrefixedName("leave_", t);
    PrefixedName("enter_", t);
    PrefixedName("after_", t);
    assert ("before_" + t)[0] == 'b' && ("leave_" + t)[0] == 'l';
    assert ("enter_" + t)[0] == 'e' && ("after_" + t)[0] == 'a';
  }

  /** A bare name is a state to enter, or else an event to come after. */
  lemma ShortNames(states: set<string>, names: set<string>, n: string)
    requires !("before_" <= n) && !("leave_" <= n) && !("enter_" <= n) && !("after_" <= n)
    ensures Parse(states, names, n) ==
            if n in states then Some(CallbackKey(n, EnterState))
            else if n in names then Some(CallbackKey(n, AfterEvent)) else None
  {
  }

  ghost predicate Files<C>(cbs: map<CallbackKey, C>, states: set<string>, names: set<string>, named: map<string, C>) {
    && (forall n :: n in named && Parse(states, names, n).Some? ==> Parse(states, names, n).value in cbs)
    && (forall k :: k in cbs ==>
          exists n :: n in named && Parse(states, names, n) == Some(k) && cbs[k] == named[n])
  }

  ghost predicate CallbacksOf<C>(cbs: map<CallbackKey, C>, events: seq<EventDesc>, named: map<string, C>) {
    Files(cbs, StatesOf(events), NamesOf(events), named)
  }

  /** The outer loop of NewFSM: the transition map and the sets of states and event names. */
  method BuildTable(events: seq<EventDesc>) returns (t: Table, states: set<string>, names: set<string>)
    ensures TableOf(t, events)
    ensures states == StatesOf(events)
    ensures names == NamesOf(events)
  {
    t, states, names := map[], {}, {};
    var i := 0;
    while i < |events|
      invariant 0 <= i <= |events|
      invariant TableOf(t, events[..i])
      invariant states == StatesOf(events[..i])
      invariant names == NamesOf(events[..i])
    {
      ghost var t0 := t;
      t, states := AddEvent(t, states, events[i]);
      names := names + {events[i].name};
      assert events[..i + 1][..i] == events[..i];
      TableExtend(t0, t, events, i);
      i := i + 1;
    }
    assert events[..i] == events;
  }

  /** The states that an event with its first j sources mentions. */
  function Mentioned(e: EventDesc, j: nat): set<string>
    requires j <= |e.src|
  {
    if j == 0 then {} else (set s | s in e.src[..j]) + {e.dst}
  }

  lemma MentionedNext(e: EventDesc, j: nat)
    requires j < |e.src|
    ensures Mentioned(e, j + 1) == Mentioned(e, j) + {e.src[j], e.dst}
  {
    assert e.src[..j + 1] == e.src[..j] + [e.src[j]];
  }

  /** The inner loop of NewFSM, over the sources of one event. */
  method AddEvent(t0: Table, states0: set<string>, e: EventDesc) returns (t: Table, states: set<string>)
    ensures forall k :: k in t <==> k in t0 || (k.event == e.name && k.src in e.src)
    ensures forall k :: k in t ==> t[k] == if k.event == e.name && k.src in e.src then e.dst else t0[k]
    ensures states == states0 + if e.src == [] then {} else (set s | s in e.src) + {e.dst}
  {
    t, states := t0, states0;
    var j := 0;
    while j < |e.src|
      invariant 0 <= j <= |e.src|
      invariant forall k :: k in t <==> k in t0 || (k.event == e.name && k.src in e.src[..j])
      invariant forall k :: k in t ==> t[k] == if k.event == e.name && k.src in e.src[..j] then e.dst else t0[k]
      invariant states == states0 + Mentioned(e, j)
    {
      assert e.src[..j + 1] == e.src[..j] + [e.src[j]];
      MentionedNext(e, j);
      t := t[EdgeKey(e.name, e.src[j]) := e.dst];
      states := states + {e.src[j], e.dst};
      j := j + 1;
    }
    assert e.src[..j] == e.src;
  }

  /** The last loop of NewFSM, over the callback map in no particular order. */
  method FileCallbacks<C>(states: set<string>, names: set<string>, named: map<string, C>)
    returns (cbs: map<CallbackKey, C>)
    ensures Files(cbs, states, names, named)
  {
    cbs := map[];
    var todo := named.Keys;
    while todo != {}
      invariant todo <= named.Keys
      invariant forall n :: n in named && n !in todo && Parse(states, names, n).Some? ==>
                  Parse(states, names, n).value in cbs
      invariant forall k :: k in cbs ==>
                  exists n :: n in named && Parse(states, names, n) == Some(k) && cbs[k] == named[n]
      decreases |todo|
    {
      var name :| name in todo;
      todo := todo - {name};
      var key := Parse(states, names, name);
      if key.Some? {
        cbs := cbs[key.value := named[name]];
      }
    }
  }

  class FSM<C, A> {
    var current: string
    var transitions: Table
    var callbacks: map<CallbackKey, C>
    var transition: Option<EventInfo<A>>

    ghost function Abs(): Machine<C, A>
      reads this
    {
      Machine(transitions, callbacks, current, transition)
    }

    constructor (initial: string, events: seq<EventDesc>, named: map<string, C>)
      ensures current == initial && transition.None?
      ensures TableOf(transitions, events)
      ensures CallbacksOf(callbacks, events, named)
    {
      current := initial;
      transition := None;
      var t, states, names := BuildTable(events);
      transitions := t;
      var cbs := FileCallbacks(states, names, named);
      callbacks := cbs;
    }

    predicate Can(event: string)
      reads this
    {
      EdgeKey(event, current) in transitions && transition.None?
    }

    method Event(event: string, args: A, o: Oracle) returns (result: EventResult, calls: seq<Call<C, A>>)
      modifies this`current, this`transition
      ensures Step(Abs(), result, calls) == EventStep(old(Abs()), event, args, o)
    {
      calls := [];
      if transition.Some? {
        return InTransition, [];
      }
      if EdgeKey(event, current) !in transitions {
        if k :| k in transitions && k.event == event {
          return InvalidEvent, [];
        }
        return UnknownEvent, [];
      }
      var dst := transitions[EdgeKey(event, current)];
      var e := EventInfo(Edge(event, current, dst, args), None, false, false);
      var stopped, more;
      e, calls, stopped := Dispatch(BEFORE, e, o);
      if stopped {
        return Canceled(e.err), calls;
      }
      if current == dst {
        e, more, stopped := Dispatch(AFTER, e, o);
        return NoTransition(e.err), calls + more;
      }
      ghost var e1 := e;
      transition := Some(e);
      e, more, stopped := Dispatch(LEAVE, e, o);
      FireOrder(callbacks, BEFORE, EventInfo(Edge(event, current, dst, args), None, false, false), o);
      FireOrder(callbacks, LEAVE, e1, o);
      calls := calls + more;
      transition := Some(e);
      if stopped {
        if e.canceled {
          transition := None;
          return Canceled(e.err), calls;
        }
        return Async(e.err), calls;
      }
      var err;
      err, more := Transition(o);
      result := Done(err.value.err);
      calls := calls + more;
    }

    /** Completes the pending transition; the event record is handed back, None when nothing was pending. */
    method Transition(o: Oracle) returns (e: Option<EventInfo<A>>, calls: seq<Call<C, A>>)
      modifies this`current, this`transition
      ensures Abs() == TransitionStep(old(Abs()), o).machine
      ensures calls == TransitionStep(old(Abs()), o).calls
      ensures e.Some? <==> old(transition).Some?
      ensures e.Some? ==> e.value == Fire(callbacks, ENTER + AFTER, old(transition).value, o).info
    {
      if transition.None? {
        return None, [];
      }
      current := transition.value.edge.dst;
      var e', stopped;
      e', calls, stopped := Dispatch(ENTER + AFTER, transition.value, o);
      e := Some(e');
      transition := None;
    }

    /** Calls the registered callbacks of the given slots, in order. */
    method Dispatch(slots: seq<Slot>, e0: EventInfo<A>, o: Oracle)
      returns (e: EventInfo<A>, calls: seq<Call<C, A>>, stopped: bool)
      ensures Fired(e, calls, stopped) == Fire(callbacks, slots, e0, o)
    {
      e, calls, stopped := e0, [], false;
      var i := 0;
      while i < |slots|
        invariant 0 <= i <= |slots| && !stopped
        invariant var rest := Fire(callbacks, slots[i..], e, o);
                  Fire(callbacks, slots, e0, o) == Fired(rest.info, calls + rest.calls, rest.stopped)
      {
        var key := slots[i].Key(e.edge);
        assert slots[i..][1..] == slots[i + 1..];
        if key in callbacks {
          calls := calls + [Call(slots[i], callbacks[key], e)];
          e := Apply(o(slots[i]), e);
          if Stops(slots[i], e) {
            return e, calls, true;
          }
        }
        i := i + 1;
      }
    }
  }

  lemma TableExtend(t0: Table, t: Table, events: seq<EventDesc>, i: nat)
    requires i < |events| && TableOf(t0, events[..i])
    requires forall k :: k in t <==> k in t0 || (k.event == events[i].name && k.src in events[i].src)
    requires forall k :: k in t ==>
               t[k] == if k.event == events[i].name && k.src in events[i].src then events[i].dst else t0[k]
    ensures TableOf(t, events[..i + 1])
  {
    assert events[..i + 1][..i] == events[..i];
  }
}
