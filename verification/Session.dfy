/**
 * One polling session (MailClientContext): the select loop of `start`, driving a four-state machine
 * built on the fsm engine, with two timers, a poll-result channel and a command channel.
 *
 * Timer assumption: a stopped or reset timer delivers no earlier tick. A poll result may be stale,
 * that is, arrive while the session is deferred or while a later poll is running.
 */
module Session {
  import opened Common
  import F = Fsm

  datatype Status = Error | Initialized | Pinging | Deferred | Stopped | ReDeferred

  const INIT := "init"
  const DEFERRED := "deferred"
  const PINGING := "pinging"
  const STOPPED := "stopped"

  datatype Args =
    | DeferArgs(status: Status)
    | PingArgs
    | StopArgs(msg: string, status: Status, err: Option<string>)

  datatype Callback =
    LeaveInit | EnterDeferred | ExitDeferred | EnterPinging | ExitPinging | EnterStopped | ExitStopped

  datatype Channel = Nil | Open | Closed

  datatype Timer = Unset | Idle | Armed

  datatype Push = Sent | InvalidToken | PushFailed(err: string)

  datatype Command = PingerStop | PingerDefer | UnknownCommand(code: int)

  /** What the select statement can receive, with the outcomes of the foreign calls made in response. */
  datatype Input =
    | MaxPollTick(register: Push)
    | DeferTick
    | NewMail(tooFast: bool, push: Push, ignoreFailures: bool)
    | ReRegister(register: Push)
    | PollError(err: string)
    | Cmd(command: Command)

  // ---------------------------------------------------------------------------------------
  // The machine's table and callbacks

  function Events(): seq<F.EventDesc> {
    [ F.EventDesc(INIT, [""], INIT),
      F.EventDesc(DEFERRED, [STOPPED, INIT], DEFERRED),
      F.EventDesc(PINGING, [DEFERRED, STOPPED], PINGING),
      F.EventDesc(STOPPED, [PINGING, DEFERRED], STOPPED) ]
  }

  function Callbacks(): map<string, Callback> {
    map[ "leave_" + INIT := LeaveInit,
         "enter_" + DEFERRED := EnterDeferred,
         "leave_" + DEFERRED := ExitDeferred,
         "enter_" + PINGING := EnterPinging,
         "leave_" + PINGING := ExitPinging,
         "enter_" + STOPPED := EnterStopped,
         "leave_" + STOPPED := ExitStopped ]
  }

  /** The transitions of a session; an event is named after the state it leads to. */
  predicate Allowed(from: string, to: string) {
    || (to == INIT && from == "")
    || (to == DEFERRED && (from == STOPPED || from == INIT))
    || (to == PINGING && (from == DEFERRED || from == STOPPED))
    || (to == STOPPED && (from == PINGING || from == DEFERRED))
  }

  function Leaving(state: string): Option<Callback> {
    if state == INIT then Some(LeaveInit)
    else if state == DEFERRED then Some(ExitDeferred)
    else if state == PINGING then Some(ExitPinging)
    else if state == STOPPED then Some(ExitStopped)
    else None
  }

  function Entering(state: string): Option<Callback> {
    if state == DEFERRED then Some(EnterDeferred)
    else if state == PINGING then Some(EnterPinging)
    else if state == STOPPED then Some(EnterStopped)
    else None
  }

  type Callable = map<F.CallbackKey, Callback>

  ghost predicate SessionTable(t: F.Table) {
    forall k :: (k in t <==> Allowed(k.src, k.event)) && (k in t ==> t[k] == k.event)
  }

  /** Exactly the leave and enter callbacks of the four states are registered. */
  ghost predicate SessionCallbacks(cbs: Callable) {
    forall k :: (k in cbs <==> Registered(k).Some?) && (k in cbs ==> Registered(k) == Some(cbs[k]))
  }

  function Registered(k: F.CallbackKey): Option<Callback> {
    match k.kind
    case LeaveState => Leaving(k.target)
    case EnterState => Entering(k.target)
    case _ => None
  }

  lemma TableIsSession(t: F.Table)
    requires F.TableOf(t, Events())
    ensures SessionTable(t)
  {
    var es := Events();
    assert es[..3] == [es[0], es[1], es[2]] && es[..2] == [es[0], es[1]] && es[..1] == [es[0]];
    forall k: F.EdgeKey
      ensures F.LastDefinition(es, k) == if Allowed(k.src, k.event) then Some(k.event) else None
    {
      assert F.LastDefinition([], k) == None;
      assert es[..1][..0] == [] && es[..2][..1] == es[..1] && es[..3][..2] == es[..2];
      assert F.LastDefinition(es[..1], k) == if k.event == INIT && k.src == "" then Some(INIT) else None;
      assert F.LastDefinition(es[..2], k) ==
             if k.event == DEFERRED && (k.src == STOPPED || k.src == INIT) then Some(DEFERRED)
             else F.LastDefinition(es[..1], k);
      assert F.LastDefinition(es[..3], k) ==
             if k.event == PINGING && (k.src == DEFERRED || k.src == STOPPED) then Some(PINGING)
             else F.LastDefinition(es[..2], k);
    }
  }

  const STATES: set<string> := {INIT, DEFERRED, PINGING, STOPPED}

  lemma StateNames()
    ensures STATES <= F.StatesOf(Events())
  {
    var es := Events();
    assert es[..3] == [es[0], es[1], es[2]] && es[..2] == [es[0], es[1]];
    assert es[..3][..2] == es[..2];
    assert INIT in es[1].src && DEFERRED == es[1].dst;
    assert PINGING in es[3].src && STOPPED == es[3].dst;
    assert F.StatesOf(es[..2]) >= {INIT, DEFERRED};
    assert F.StatesOf(es[..3]) >= F.StatesOf(es[..2]);
    assert F.StatesOf(es) >= F.StatesOf(es[..3]);
  }

  lemma ParseLeave(states: set<string>, names: set<string>, t: string)
    ensures F.Parse(states, names, "leave_" + t) == F.Filed(t, "state", states, F.LeaveState)
  {
    var n := "leave_" + t;
    assert n[0] == 'l' && n[6..] == t && n[..6] == "leave_";
  }

  lemma ParseEnter(states: set<string>, names: set<string>, t: string)
    ensures F.Parse(states, names, "enter_" + t) == F.Filed(t, "state", states, F.EnterState)
  {
    var n := "enter_" + t;
    assert n[0] == 'e' && n[6..] == t && n[..6] == "enter_";
  }

  /** The name under which a leave or enter callback of a state is given. */
  function NameOf(k: F.CallbackKey): string {
    (if k.kind.LeaveState? then "leave_" else "enter_") + k.target
  }

  lemma DifferentKinds(s: string, t: string)
    ensures "leave_" + s != "enter_" + t
  {
    assert ("leave_" + s)[0] == 'l' && ("enter_" + t)[0] == 'e';
  }

  lemma SameTarget(p: string, s: string, t: string)
    ensures p + s == p + t <==> s == t
  {
    assert (p + s)[|p|..] == s && (p + t)[|p|..] == t;
  }

  lemma LeaveGiven(t: string)
    requires Leaving(t).Some?
    ensures "leave_" + t in Callbacks() && Callbacks()["leave_" + t] == Leaving(t).value
  {
    DifferentKinds(t, DEFERRED);
    DifferentKinds(t, PINGING);
    DifferentKinds(t, STOPPED);
    SameTarget("leave_", t, INIT);
    SameTarget("leave_", t, DEFERRED);
    SameTarget("leave_", t, PINGING);
    SameTarget("leave_", t, STOPPED);
  }

  lemma EnterGiven(t: string)
    requires Entering(t).Some?
    ensures "enter_" + t in Callbacks() && Callbacks()["enter_" + t] == Entering(t).value
  {
    DifferentKinds(INIT, t);
    DifferentKinds(DEFERRED, t);
    DifferentKinds(PINGING, t);
    DifferentKinds(STOPPED, t);
    SameTarget("enter_", t, DEFERRED);
    SameTarget("enter_", t, PINGING);
    SameTarget("enter_", t, STOPPED);
  }

  /** The name of a registered callback files it under its key. */
  lemma NameFiled(k: F.CallbackKey, states: set<string>, names: set<string>)
    requires k.kind.LeaveState? || k.kind.EnterState?
    requires k.target in states && k.target != "state"
    ensures F.Parse(states, names, NameOf(k)) == Some(k)
  {
    ParseLeave(states, names, k.target);
    ParseEnter(states, names, k.target);
  }

  /** What the callback map says of a key, and how that key's name parses. */
  lemma NamesParse(k: F.CallbackKey)
    requires Registered(k).Some?
    ensures NameOf(k) in Callbacks() && Callbacks()[NameOf(k)] == Registered(k).value
    ensures F.Parse(F.StatesOf(Events()), F.NamesOf(Events()), NameOf(k)) == Some(k)
  {
    if k.kind.LeaveState? {
      LeaveGiven(k.target);
    } else {
      EnterGiven(k.target);
    }
    StateNames();
    assert k.target in STATES;
    NameFiled(k, F.StatesOf(Events()), F.NamesOf(Events()));
  }

  lemma CallbacksAreSession(cbs: Callable)
    requires F.CallbacksOf(cbs, Events(), Callbacks())
    ensures SessionCallbacks(cbs)
  {
    var states, names := F.StatesOf(Events()), F.NamesOf(Events());
    forall k: F.CallbackKey
      ensures (k in cbs <==> Registered(k).Some?) && (k in cbs ==> Registered(k) == Some(cbs[k]))
    {
      if k in cbs {
        var n :| n in Callbacks() && F.Parse(states, names, n) == Some(k) && cbs[k] == Callbacks()[n];
        var k' := KeyOf(n);
        NamesParse(k');
      }
      if Registered(k).Some? {
        NamesParse(k);
      }
    }
  }

  lemma KeyOf(n: string) returns (k: F.CallbackKey)
    requires n in Callbacks()
    ensures Registered(k).Some? && NameOf(k) == n
  {
    if t :| t in STATES && n == "leave_" + t {
      k := F.CallbackKey(t, F.LeaveState);
    } else {
      var t :| t in STATES && t != INIT && n == "enter_" + t;
      k := F.CallbackKey(t, F.EnterState);
    }
  }

  const PLAIN: F.Oracle := (s: F.Slot) => F.NO_EFFECT

  function ToSeq(c: Option<Callback>): seq<Callback> {
    if c.Some? then [c.value] else []
  }

  /** The callbacks that were called, in order. */
  function Called(calls: seq<F.Call<Callback, Args>>): seq<Callback> {
    seq(|calls|, i requires 0 <= i < |calls| => calls[i].callback)
  }

  function Lookup(cbs: Callable, k: F.CallbackKey): Option<Callback> {
    if k in cbs then Some(cbs[k]) else None
  }

  /** Only leave and enter callbacks of named states are registered. */
  ghost predicate OnlyLeaveAndEnter(cbs: Callable) {
    forall k :: k in cbs ==> (k.kind.LeaveState? || k.kind.EnterState?) && k.target != ""
  }

  /** One named callback, if it is registered. */
  function Single(cbs: Callable, slot: F.Slot, e: F.EventInfo<Args>): seq<F.Call<Callback, Args>> {
    if slot.Key(e.edge) in cbs then [F.Call(slot, cbs[slot.Key(e.edge)], e)] else []
  }

  /** An event along an edge to another state, with nothing cancelled, held or registered for events. */
  lemma PlainStep(m: F.Machine<Callback, Args>, event: string, args: Args)
    requires m.Can(event) && m.table[F.EdgeKey(event, m.current)] != m.current
    requires OnlyLeaveAndEnter(m.callbacks)
    ensures var s := F.EventStep(m, event, args, PLAIN);
            var dst := m.table[F.EdgeKey(event, m.current)];
            var e := F.EventInfo(F.Edge(event, m.current, dst, args), None, false, false);
            && s.machine == m.(current := dst)
            && s.result == F.Done(None)
            && s.calls == Single(m.callbacks, F.LeaveNamed, e) + Single(m.callbacks, F.EnterNamed, e)
  {
    var dst := m.table[F.EdgeKey(event, m.current)];
    var e := F.EventInfo(F.Edge(event, m.current, dst, args), None, false, false);
    FireNothing(m.callbacks, F.BEFORE, e);
    FireOne(m.callbacks, F.LeaveNamed, F.LeaveAny, e);
    FireFinal(m.callbacks, e);
    assert [] + Single(m.callbacks, F.LeaveNamed, e) == Single(m.callbacks, F.LeaveNamed, e);
  }

  lemma PlainEvent(m: F.Machine<Callback, Args>, event: string, args: Args)
    requires m.Can(event) && m.table[F.EdgeKey(event, m.current)] != m.current
    requires OnlyLeaveAndEnter(m.callbacks)
    ensures var s := F.EventStep(m, event, args, PLAIN);
            var dst := m.table[F.EdgeKey(event, m.current)];
            && s.machine == m.(current := dst)
            && s.result == F.Done(None)
            && Called(s.calls) == ToSeq(Lookup(m.callbacks, F.CallbackKey(m.current, F.LeaveState)))
                                  + ToSeq(Lookup(m.callbacks, F.CallbackKey(dst, F.EnterState)))
            && (forall c :: c in s.calls ==> c.info.edge.args == args)
  {
    PlainStep(m, event, args);
    var dst := m.table[F.EdgeKey(event, m.current)];
    var e := F.EventInfo(F.Edge(event, m.current, dst, args), None, false, false);
    CalledAppend(Single(m.callbacks, F.LeaveNamed, e), Single(m.callbacks, F.EnterNamed, e));
  }

  lemma CalledAppend(a: seq<F.Call<Callback, Args>>, b: seq<F.Call<Callback, Args>>)
    ensures Called(a + b) == Called(a) + Called(b)
  {
  }

  /** On a session's machine an allowed event never fails, and calls the leave and enter callbacks. */
  lemma AllowedEventSucceeds(m: F.Machine<Callback, Args>, to: string, args: Args)
    requires SessionTable(m.table) && SessionCallbacks(m.callbacks) && m.pending.None?
    requires Allowed(m.current, to) && m.current != "" && m.current != to
    ensures var s := F.EventStep(m, to, args, PLAIN);
            && s.machine == m.(current := to)
            && s.result == F.Done(None)
            && Called(s.calls) == ToSeq(Leaving(m.current)) + ToSeq(Entering(to))
            && (forall c :: c in s.calls ==> c.info.edge.args == args)
  {
    assert F.EdgeKey(to, m.current) in m.table;
    assert Lookup(m.callbacks, F.CallbackKey(m.current, F.LeaveState)) == Leaving(m.current);
    assert Lookup(m.callbacks, F.CallbackKey(to, F.EnterState)) == Entering(to);
    PlainEvent(m, to, args);
  }

  lemma {:induction false} FireNothing(cbs: Callable, slots: seq<F.Slot>, e: F.EventInfo<Args>)
    requires forall s :: s in slots ==> s.Key(e.edge) !in cbs
    ensures F.Fire(cbs, slots, e, PLAIN) == F.Fired(e, [], false)
  {
    if slots != [] {
      assert slots[0] in slots;
      FireNothing(cbs, slots[1..], e);
    }
  }

  /** Of a named and a general slot only the named one is registered; it leaves the event record as it was. */
  lemma FireOne(cbs: Callable, named: F.Slot, general: F.Slot, e: F.EventInfo<Args>)
    requires general.Key(e.edge) !in cbs && !e.canceled && !e.async
    ensures F.Fire(cbs, [named, general], e, PLAIN) ==
            if named.Key(e.edge) in cbs then F.Fired(e, [F.Call(named, cbs[named.Key(e.edge)], e)], false)
            else F.Fired(e, [], false)
  {
    assert [named, general][1..] == [general];
    assert [general][1..] == [];
    assert F.Apply(F.NO_EFFECT, e) == e;
    FireNothing(cbs, [general], e);
  }

  lemma FireFinal(cbs: Callable, e: F.EventInfo<Args>)
    requires forall s :: s in [F.EnterAny, F.AfterNamed, F.AfterAny] ==> s.Key(e.edge) !in cbs
    ensures var k := F.CallbackKey(e.edge.dst, F.EnterState);
            F.Fire(cbs, F.ENTER + F.AFTER, e, PLAIN) ==
            if k in cbs then F.Fired(e, [F.Call(F.EnterNamed, cbs[k], e)], false) else F.Fired(e, [], false)
  {
    var all := F.ENTER + F.AFTER;
    assert all[0] == F.EnterNamed;
    assert all[1..] == [F.EnterAny, F.AfterNamed, F.AfterAny];
    assert F.Apply(F.NO_EFFECT, e) == e;
    FireNothing(cbs, all[1..], e);
  }

  // ---------------------------------------------------------------------------------------
  // The simple machine a session implements

  const MAX_REARM := 3

  datatype Phase = Waiting | Polling | Ended

  /** `mails` counts handled new-mail results, `pushes` attempted new-mail pushes. */
  datatype State =
    State(phase: Phase, rearm: nat, isImap: bool, stopAllClosed: bool, pollLeftOpen: bool, mails: nat, pushes: nat)
  {
    predicate Inv() {
      && rearm <= MAX_REARM
      && (!isImap ==> rearm == 0)
      && (pollLeftOpen || stopAllClosed ==> phase.Ended?)
    }

    /** What RPC callers see as the session's status. */
    function Visible(): Status {
      match phase
      case Polling => Pinging
      case Waiting => if rearm > 0 then ReDeferred else Deferred
      case Ended => Stopped
    }
  }

  function Initial(isImap: bool): State {
    State(Waiting, 0, isImap, false, false, 0, 0)
  }

  predicate AttemptsPush(s: State, tooFast: bool) {
    !tooFast || s.rearm == 0
  }

  /** A failed push ends the session at once; otherwise an IMAP session rearms up to three times. */
  function AfterMail(s: State, tooFast: bool, push: Push, ignore: bool): State {
    var s' := s.(mails := s.mails + 1, pushes := s.pushes + if AttemptsPush(s, tooFast) then 1 else 0);
    if AttemptsPush(s, tooFast) && push != Sent && !ignore then
      s'.(phase := Ended, pollLeftOpen := s.phase.Polling?)
    else if s.isImap && s.rearm < MAX_REARM then s'.(phase := Waiting, rearm := s.rearm + 1)
    else s'.(phase := Ended)
  }

  /** One turn of the select loop; ticks of a timer that is not armed are never delivered. */
  function Next(s: State, input: Input): State {
    if s.phase.Ended? then s
    else
      match input
      case MaxPollTick(_) => s.(phase := Ended)
      case DeferTick => s.(phase := Polling)
      case NewMail(tooFast, push, ignore) => AfterMail(s, tooFast, push, ignore)
      case ReRegister(_) => s.(phase := Ended)
      case PollError(_) => s.(phase := Ended)
      case Cmd(PingerStop) => s.(phase := Ended, stopAllClosed := true)
      case Cmd(PingerDefer) => s.(phase := Waiting, rearm := 0)
      case Cmd(UnknownCommand(_)) => s
  }

  function Run(s: State, inputs: seq<Input>): State
    decreases |inputs|
  {
    if inputs == [] then s else Run(Next(s, inputs[0]), inputs[1..])
  }

  lemma {:induction false} RunAppend(s: State, a: seq<Input>, b: seq<Input>)
    ensures Run(s, a + b) == Run(Run(s, a), b)
    decreases |a|
  {
    if a == [] {
      assert a + b == b;
    } else {
      assert (a + b)[1..] == a[1..] + b;
      RunAppend(Next(s, a[0]), a[1..], b);
    }
  }

  lemma {:induction false} RunKeepsInv(s: State, inputs: seq<Input>)
    requires s.Inv()
    ensures Run(s, inputs).Inv() && Run(s, inputs).isImap == s.isImap
    decreases |inputs|
  {
    if inputs != [] {
      RunKeepsInv(Next(s, inputs[0]), inputs[1..]);
    }
  }

  /** The defer commands handled before the session ends. */
  function Defers(s: State, inputs: seq<Input>): nat
    decreases |inputs|
  {
    if inputs == [] || s.phase.Ended? then 0
    else (if inputs[0] == Cmd(PingerDefer) then 1 else 0) + Defers(Next(s, inputs[0]), inputs[1..])
  }

  lemma {:induction false} MailsFrom(s: State, inputs: seq<Input>)
    requires s.Inv()
    ensures Run(s, inputs).mails <= s.mails
              + if s.phase.Ended? then 0
                else if s.isImap then (MAX_REARM - s.rearm) + 1 + 3 * Defers(s, inputs)
                else 1
    decreases |inputs|
  {
    if inputs != [] {
      MailsFrom(Next(s, inputs[0]), inputs[1..]);
    }
  }

  /**
   * A run that handles d defer commands handles at most 3d + 4 new-mail results, a run of another
   * protocol at most one.
   */
  lemma MailsBounded(isImap: bool, inputs: seq<Input>)
    ensures var s := Initial(isImap);
            Run(s, inputs).mails <= if isImap then 3 * Defers(s, inputs) + 4 else 1
  {
    MailsFrom(Initial(isImap), inputs);
  }

  const ONE_MAIL: Input := NewMail(false, Sent, false)

  /** d rounds of three results and a defer. */
  function Rounds(d: nat): seq<Input> {
    if d == 0 then [] else [ONE_MAIL, ONE_MAIL, ONE_MAIL, Cmd(PingerDefer)] + Rounds(d - 1)
  }

  lemma {:induction false} RoundsRun(s: State, d: nat)
    requires s.phase.Waiting? && s.isImap && s.rearm == 0
    ensures Run(s, Rounds(d)) == s.(mails := s.mails + 3 * d, pushes := s.pushes + 3 * d)
    ensures Defers(s, Rounds(d)) == d
    decreases d
  {
    if d > 0 {
      var in0 := Rounds(d);
      var s1 := Next(s, in0[0]);
      var s2 := Next(s1, in0[1]);
      var s3 := Next(s2, in0[2]);
      var s4 := Next(s3, in0[3]);
      assert in0[1..][0] == in0[1] && in0[1..][1..] == in0[2..];
      assert in0[2..][0] == in0[2] && in0[2..][1..] == in0[3..];
      assert in0[3..][0] == in0[3] && in0[3..][1..] == in0[4..] == Rounds(d - 1);
      RoundsRun(s4, d - 1);
      assert Run(s, in0) == Run(s1, in0[1..]) == Run(s2, in0[2..]) == Run(s3, in0[3..]) == Run(s4, in0[4..]);
      assert Defers(s, in0) == Defers(s1, in0[1..]) == Defers(s2, in0[2..]) == Defers(s3, in0[3..]);
    }
  }

  /** The bound of MailsBounded is reached for every number of defers. */
  lemma BoundIsReached(d: nat)
    ensures exists inputs :: && Defers(Initial(true), inputs) == d
                             && Run(Initial(true), inputs).mails == 3 * d + 4
  {
    var s := Initial(true);
    var tail := [ONE_MAIL, ONE_MAIL, ONE_MAIL, ONE_MAIL];
    RoundsRun(s, d);
    RunAppend(s, Rounds(d), tail);
    DefersAppend(s, Rounds(d), tail);
    var s0 := Run(s, Rounds(d));
    var s1 := Next(s0, ONE_MAIL);
    var s2 := Next(s1, ONE_MAIL);
    var s3 := Next(s2, ONE_MAIL);
    assert tail[1..] == [ONE_MAIL, ONE_MAIL, ONE_MAIL];
    assert tail[1..][1..] == [ONE_MAIL, ONE_MAIL] && tail[1..][1..][1..] == [ONE_MAIL];
    assert [ONE_MAIL][1..] == [];
    assert Run(s0, tail) == Run(s1, tail[1..]) == Run(s2, tail[1..][1..]) == Run(s3, [ONE_MAIL]);
    assert Run(s3, [ONE_MAIL]) == Run(Next(s3, ONE_MAIL), []);
    assert Defers(s0, tail) == Defers(s1, tail[1..]) == Defers(s2, tail[1..][1..]) == Defers(s3, [ONE_MAIL]) == 0;
    assert Defers(s, Rounds(d) + tail) == d && Run(s, Rounds(d) + tail).mails == 3 * d + 4;
  }

  lemma {:induction false} DefersAppend(s: State, a: seq<Input>, b: seq<Input>)
    ensures Defers(s, a + b) == Defers(s, a) + Defers(Run(s, a), b)
    decreases |a|
  {
    if a == [] {
      assert a + b == b;
    } else {
      assert (a + b)[1..] == a[1..] + b;
      DefersAppend(Next(s, a[0]), a[1..], b);
      EndedStays(Next(s, a[0]), a[1..]);
    }
  }

  lemma {:induction false} EndedStays(s: State, inputs: seq<Input>)
    ensures s.phase.Ended? ==> Run(s, inputs) == s
    decreases |inputs|
  {
    if inputs != [] {
      EndedStays(Next(s, inputs[0]), inputs[1..]);
    }
  }

  // What a run comes to, in terms of its inputs alone.

  /** The new-mail results since the last defer command. */
  function MailsSince(inputs: seq<Input>): nat {
    if inputs == [] then 0
    else
      var n := |inputs| - 1;
      if inputs[n] == Cmd(PingerDefer) then 0
      else MailsSince(inputs[..n]) + if inputs[n].NewMail? then 1 else 0
  }

  /** A push is due for this result: it is not too fast, or it is the first since the start or a defer. */
  predicate PushDue(before: seq<Input>, input: Input) {
    input.NewMail? && (!input.tooFast || MailsSince(before) == 0)
  }

  /** After these inputs, this one makes the loop return. */
  predicate Ending(isImap: bool, before: seq<Input>, input: Input) {
    match input
    case MaxPollTick(_) | ReRegister(_) | PollError(_) => true
    case DeferTick => false
    case Cmd(command) => command == PingerStop
    case NewMail(_, push, ignore) =>
      (PushDue(before, input) && push != Sent && !ignore) || !isImap || MailsSince(before) >= 3
  }

  ghost predicate EndingAt(isImap: bool, inputs: seq<Input>, i: int) {
    0 <= i < |inputs| && Ending(isImap, inputs[..i], inputs[i])
  }

  /** Some input makes the loop return. */
  ghost predicate Returns(isImap: bool, inputs: seq<Input>) {
    exists i :: EndingAt(isImap, inputs, i)
  }

  /** The input at i is handled: the loop has not returned before it. */
  ghost predicate Handled(isImap: bool, inputs: seq<Input>, i: int) {
    0 <= i < |inputs| && !Returns(isImap, inputs[..i])
  }

  /** The last input other than an unknown command. */
  function LastKnown(inputs: seq<Input>): Option<Input> {
    if inputs == [] then None
    else
      var n := |inputs| - 1;
      if inputs[n].Cmd? && inputs[n].command.UnknownCommand? then LastKnown(inputs[..n]) else Some(inputs[n])
  }

  lemma {:induction false} RunSnoc(s: State, inputs: seq<Input>)
    requires inputs != []
    ensures var n := |inputs| - 1;
            Run(s, inputs) == Next(Run(s, inputs[..n]), inputs[n])
  {
    var n := |inputs| - 1;
    assert inputs == inputs[..n] + [inputs[n]];
    RunAppend(s, inputs[..n], [inputs[n]]);
    assert [inputs[n]][1..] == [];
  }

  lemma ReturnsSnoc(isImap: bool, inputs: seq<Input>)
    requires inputs != []
    ensures var n := |inputs| - 1;
            Returns(isImap, inputs) <==> Returns(isImap, inputs[..n]) || Ending(isImap, inputs[..n], inputs[n])
  {
    var n := |inputs| - 1;
    var front := inputs[..n];
    if i :| EndingAt(isImap, front, i) {
      assert front[..i] == inputs[..i];
      assert EndingAt(isImap, inputs, i);
    }
    if Ending(isImap, front, inputs[n]) {
      assert EndingAt(isImap, inputs, n);
    }
    if i :| EndingAt(isImap, inputs, i) {
      if i < n {
        assert front[..i] == inputs[..i];
        assert EndingAt(isImap, front, i);
      }
    }
  }

  /**
   * Over every run: the session has ended exactly when some input made the loop return. While it runs, it polls
   * exactly when its last input other than an unknown command was the defer tick, and it has rearmed once for
   * every new-mail result since the last defer.
   */
  lemma {:induction false} RunEndsIff(isImap: bool, inputs: seq<Input>)
    ensures var s := Run(Initial(isImap), inputs);
            && s.isImap == isImap
            && (s.phase.Ended? <==> Returns(isImap, inputs))
            && (!s.phase.Ended? ==>
                  && (s.phase.Polling? <==> LastKnown(inputs) == Some(DeferTick))
                  && s.rearm == MailsSince(inputs))
    decreases |inputs|
  {
    if inputs == [] {
      assert !Returns(isImap, inputs);
    } else {
      var n := |inputs| - 1;
      RunEndsIff(isImap, inputs[..n]);
      RunSnoc(Initial(isImap), inputs);
      ReturnsSnoc(isImap, inputs);
      RunKeepsInv(Initial(isImap), inputs[..n]);
    }
  }

  /** A kind of input, given the inputs before it. */
  type Kind = (seq<Input>, Input) -> bool

  const NEW_MAIL: Kind := (before: seq<Input>, input: Input) => input.NewMail?
  const PUSH_DUE: Kind := (before: seq<Input>, input: Input) => PushDue(before, input)

  /** How many handled inputs are of a kind. */
  ghost function CountHandled(isImap: bool, inputs: seq<Input>, kind: Kind): nat {
    if inputs == [] then 0
    else
      var n := |inputs| - 1;
      CountHandled(isImap, inputs[..n], kind)
      + if Handled(isImap, inputs, n) && kind(inputs[..n], inputs[n]) then 1 else 0
  }

  lemma NextCounts(s: State, input: Input)
    ensures Next(s, input).mails == s.mails + if !s.phase.Ended? && input.NewMail? then 1 else 0
    ensures Next(s, input).pushes ==
            s.pushes + if !s.phase.Ended? && input.NewMail? && AttemptsPush(s, input.tooFast) then 1 else 0
  {
  }

  lemma CountSnoc(isImap: bool, inputs: seq<Input>, kind: Kind)
    requires inputs != []
    ensures var n := |inputs| - 1;
            CountHandled(isImap, inputs, kind) == CountHandled(isImap, inputs[..n], kind)
            + if !Returns(isImap, inputs[..n]) && kind(inputs[..n], inputs[n]) then 1 else 0
  {
  }

  /** Over every run: the new-mail results handled and the pushes attempted are those that were due. */
  lemma {:induction false} MailsAndPushesCounted(isImap: bool, inputs: seq<Input>)
    ensures Run(Initial(isImap), inputs).mails == CountHandled(isImap, inputs, NEW_MAIL)
    ensures Run(Initial(isImap), inputs).pushes == CountHandled(isImap, inputs, PUSH_DUE)
    decreases |inputs|
  {
    if inputs != [] {
      var n := |inputs| - 1;
      var s := Run(Initial(isImap), inputs[..n]);
      MailsAndPushesCounted(isImap, inputs[..n]);
      RunSnoc(Initial(isImap), inputs);
      RunEndsIff(isImap, inputs[..n]);
      NextCounts(s, inputs[n]);
      CountSnoc(isImap, inputs, NEW_MAIL);
      CountSnoc(isImap, inputs, PUSH_DUE);
    }
  }

  ghost predicate StoppedAt(isImap: bool, inputs: seq<Input>, i: int) {
    Handled(isImap, inputs, i) && inputs[i] == Cmd(PingerStop)
  }

  /** Over every run: the channel that stops everything is closed exactly when a stop command was handled. */
  lemma {:induction false} StopAllClosedIff(isImap: bool, inputs: seq<Input>)
    ensures Run(Initial(isImap), inputs).stopAllClosed <==> exists i :: StoppedAt(isImap, inputs, i)
    decreases |inputs|
  {
    if inputs != [] {
      var n := |inputs| - 1;
      var front := inputs[..n];
      StopAllClosedIff(isImap, front);
      RunSnoc(Initial(isImap), inputs);
      RunEndsIff(isImap, front);
      if i :| StoppedAt(isImap, front, i) {
        assert front[..i] == inputs[..i];
        assert StoppedAt(isImap, inputs, i);
      }
      if i :| StoppedAt(isImap, inputs, i) {
        if i < n {
          assert front[..i] == inputs[..i];
          assert StoppedAt(isImap, front, i);
        }
      }
      if Handled(isImap, inputs, n) && inputs[n] == Cmd(PingerStop) {
        assert StoppedAt(isImap, inputs, n);
      }
    }
  }

  /** The input makes a polling session return without stopping its poll: a push attempted, failed and not ignored. */
  predicate LeavesOpen(s: State, input: Input) {
    && s.phase.Polling? && input.NewMail?
    && AttemptsPush(s, input.tooFast) && input.push != Sent && !input.ignoreFailures
  }

  lemma {:induction false} LeftOpenFrom(s: State, inputs: seq<Input>)
    requires s.pollLeftOpen ==> s.phase.Ended?
    ensures Run(s, inputs).pollLeftOpen <==>
            s.pollLeftOpen || exists i :: 0 <= i < |inputs| && LeavesOpen(Run(s, inputs[..i]), inputs[i])
    decreases |inputs|
  {
    if inputs != [] {
      var s', rest := Next(s, inputs[0]), inputs[1..];
      LeftOpenFrom(s', rest);
      assert Run(s, inputs[..0]) == s;
      forall i | 0 <= i < |rest|
        ensures Run(s', rest[..i]) == Run(s, inputs[..i + 1]) && rest[i] == inputs[i + 1]
      {
        assert inputs[..i + 1][1..] == rest[..i];
      }
      if j :| 0 <= j < |inputs| && LeavesOpen(Run(s, inputs[..j]), inputs[j]) {
        if j > 0 {
          assert LeavesOpen(Run(s', rest[..j - 1]), rest[j - 1]);
        }
      }
      if k :| 0 <= k < |rest| && LeavesOpen(Run(s', rest[..k]), rest[k]) {
        assert LeavesOpen(Run(s, inputs[..k + 1]), inputs[k + 1]);
      }
    }
  }

  /** Such a push is the last input the session handles. */
  lemma LeavesOpenLast(s: State, inputs: seq<Input>, i: nat)
    requires i < |inputs| && LeavesOpen(Run(s, inputs[..i]), inputs[i])
    ensures Run(s, inputs[..i + 1]).phase.Ended? && Run(s, inputs) == Run(s, inputs[..i + 1])
  {
    var last := [inputs[i]];
    assert inputs[..i + 1] == inputs[..i] + last;
    RunAppend(s, inputs[..i], last);
    assert last[1..] == [];
    assert inputs == inputs[..i + 1] + inputs[i + 1..];
    RunAppend(s, inputs[..i + 1], inputs[i + 1..]);
    EndedStays(Run(s, inputs[..i + 1]), inputs[i + 1..]);
  }

  /** A session leaves its poll channel open exactly when its run holds such a push. */
  lemma LeftOpenIff(isImap: bool, inputs: seq<Input>)
    ensures Run(Initial(isImap), inputs).pollLeftOpen <==>
            exists i :: 0 <= i < |inputs| && LeavesOpen(Run(Initial(isImap), inputs[..i]), inputs[i])
  {
    LeftOpenFrom(Initial(isImap), inputs);
  }

  /** Without a new-mail result in between, the first result after the start or after a defer attempts a push. */
  lemma {:induction false} FirstResultPushes(isImap: bool, before: seq<Input>, quiet: seq<Input>, mail: Input)
    requires before == [] || before[|before| - 1] == Cmd(PingerDefer)
    requires forall i :: i in quiet ==> !i.NewMail?
    requires mail.NewMail?
    ensures var s := Run(Initial(isImap), before + quiet);
            !s.phase.Ended? ==> Run(Initial(isImap), before + quiet + [mail]).pushes == s.pushes + 1
  {
    var s0 := Run(Initial(isImap), before);
    RunAppend(Initial(isImap), before, quiet);
    RunAppend(Initial(isImap), before + quiet, [mail]);
    if before != [] {
      var n := |before| - 1;
      assert before == before[..n] + [before[n]];
      RunAppend(Initial(isImap), before[..n], [before[n]]);
      assert [before[n]][1..] == [];
    }
    if !s0.phase.Ended? {
      QuietKeepsZero(s0, quiet);
    } else {
      EndedStays(s0, quiet);
    }
    assert [mail][1..] == [];
  }

  lemma {:induction false} QuietKeepsZero(s: State, quiet: seq<Input>)
    requires s.rearm == 0
    requires forall i :: i in quiet ==> !i.NewMail?
    ensures Run(s, quiet).rearm == 0
    decreases |quiet|
  {
    if quiet != [] {
      assert quiet[0] in quiet;
      QuietKeepsZero(Next(s, quiet[0]), quiet[1..]);
    }
  }

  // ---------------------------------------------------------------------------------------
  // The session object

  datatype Env =
    Env(status: Status, lastError: Option<string>, stopPoll: Channel, deferTimer: Timer, maxPollTimer: Timer, panicked: bool)

  /** What one callback does to the session. A wrong argument type, a nil timer or a closed channel panics. */
  function Effect(cb: Callback, args: Args, env: Env): Env {
    match cb
    case LeaveInit => env.(maxPollTimer := Armed, deferTimer := Armed)
    case EnterDeferred =>
      if !args.DeferArgs? || env.deferTimer.Unset? then env.(panicked := true)
      else env.(deferTimer := Armed, status := args.status, lastError := None)
    case ExitDeferred =>
      if env.deferTimer.Unset? then env.(panicked := true) else env.(deferTimer := Idle)
    case EnterPinging =>
      if !args.PingArgs? then env.(stopPoll := Open, panicked := true)
      else env.(stopPoll := Open, status := Pinging, lastError := None)
    case ExitPinging =>
      if env.stopPoll.Open? then env.(stopPoll := Closed) else env.(panicked := true)
    case EnterStopped =>
      if !args.StopArgs? then env.(panicked := true) else env.(status := args.status, lastError := args.err)
    case ExitStopped => env
  }

  function Effects(cbs: seq<Callback>, args: Args, env: Env): Env {
    if cbs == [] then env else Effects(cbs[1..], args, Effect(cbs[0], args, env))
  }

  /** The environment after an event is raised; the session panics on any error from the machine. */
  ghost function Raised(m: F.Machine<Callback, Args>, env: Env, event: string, args: Args): Env {
    var s := F.EventStep(m, event, args, PLAIN);
    var env' := Effects(Called(s.calls), args, env);
    if s.result == F.Done(None) then env' else env'.(panicked := true)
  }

  function Optional(cb: Option<Callback>, args: Args, env: Env): Env {
    if cb.Some? then Effect(cb.value, args, env) else env
  }

  /** The leave callback of one state, then the enter callback of another. */
  function Moved(from: string, to: string, args: Args, env: Env): Env {
    Optional(Entering(to), args, Optional(Leaving(from), args, env))
  }

  lemma TwoEffects(a: Option<Callback>, b: Option<Callback>, args: Args, env: Env)
    ensures Effects(ToSeq(a) + ToSeq(b), args, env) == Optional(b, args, Optional(a, args, env))
  {
    if a.Some? {
      assert (ToSeq(a) + ToSeq(b))[1..] == ToSeq(b);
    } else {
      assert ToSeq(a) + ToSeq(b) == ToSeq(b);
    }
    if b.Some? {
      assert forall env': Env :: Effects(ToSeq(b), args, env') == Effects(ToSeq(b)[1..], args, Effect(b.value, args, env'));
      assert ToSeq(b)[1..] == [];
    }
  }

  lemma AllowedRaise(m: F.Machine<Callback, Args>, env: Env, to: string, args: Args)
    requires SessionTable(m.table) && SessionCallbacks(m.callbacks) && m.pending.None?
    requires Allowed(m.current, to) && m.current != "" && m.current != to
    ensures Raised(m, env, to, args) == Moved(m.current, to, args, env)
  {
    AllowedEventSucceeds(m, to, args);
    TwoEffects(Leaving(m.current), Entering(to), args, env);
  }

  function StopMessage(pushSent: bool): string {
    if pushSent then "Stopping - newmail push notification sent" else "Stopping - no push notification sent"
  }

  class MailClient {
    const fsm: F.FSM<Callback, Args>
    const isImap: bool
    var status: Status
    var lastError: Option<string>
    var stopPollCh: Channel
    var stopAllCh: Channel
    var deferTimer: Timer
    var maxPollTimer: Timer
    var rearmingCount: nat
    var running: bool
    var panicked: bool
    ghost var mails: nat
    ghost var pushes: nat

    ghost function View(): Env
      reads this
    {
      Env(status, lastError, stopPollCh, deferTimer, maxPollTimer, panicked)
    }

    ghost predicate Machine()
      reads this, fsm
    {
      && SessionTable(fsm.transitions)
      && SessionCallbacks(fsm.callbacks)
      && fsm.transition.None?
    }

    /**
     * At the head of the select loop nothing has panicked, the machine is deferred or pinging, the poll
     * channel is open exactly when it is pinging, the defer timer armed exactly when it is deferred, and
     * the status says which. Once the loop has returned the status is Stopped.
     */
    ghost predicate Valid()
      reads this, fsm
    {
      && Machine()
      && !panicked
      && rearmingCount <= MAX_REARM
      && (!isImap ==> rearmingCount == 0)
      && lastError.None?
      && (running ==>
            && (fsm.current == DEFERRED || fsm.current == PINGING)
            && (stopPollCh.Open? <==> fsm.current == PINGING)
            && (deferTimer.Armed? <==> fsm.current == DEFERRED)
            && deferTimer != Unset
            && maxPollTimer.Armed?
            && stopAllCh.Open?
            && (status == Pinging <==> fsm.current == PINGING)
            && (fsm.current == DEFERRED ==> status == if rearmingCount > 0 then ReDeferred else Deferred))
      && (!running ==> status == Stopped)
    }

    ghost function Abs(): State
      reads this, fsm
    {
      State(if !running then Ended else if fsm.current == PINGING then Polling else Waiting,
            rearmingCount, isImap, stopAllCh.Closed?, !running && stopPollCh.Open?, mails, pushes)
    }

    /** A new session, up to and including the first event of `start`. */
    constructor (protocol: string)
      ensures Valid() && running && fresh(fsm)
      ensures isImap == (protocol == "IMAP")
      ensures Abs() == Initial(isImap)
    {
      fsm := new F.FSM(INIT, Events(), Callbacks());
      isImap := protocol == "IMAP";
      status, lastError := Initialized, None;
      stopPollCh, stopAllCh := Nil, Open;
      deferTimer, maxPollTimer := Unset, Unset;
      rearmingCount, running, panicked := 0, true, false;
      mails, pushes := 0, 0;
      new;
      TableIsSession(fsm.transitions);
      CallbacksAreSession(fsm.callbacks);
      RaiseDeferred(Deferred);
    }

    /** At a loop head, and after the loop, Status reports the phase of the simple machine and no error. */
    method Status() returns (st: Status, err: Option<string>)
      requires Valid()
      ensures st == Abs().Visible() && err.None?
    {
      if lastError.Some? {
        return Error, lastError;
      }
      st, err := status, None;
    }

    /** fsm.Event, running its callbacks, with the panic on error that follows every call. */
    method Raise(event: string, args: Args)
      requires Machine()
      modifies this`status, this`lastError, this`stopPollCh, this`deferTimer, this`maxPollTimer, this`panicked
      modifies fsm`current, fsm`transition
      ensures fsm.Abs() == F.EventStep(old(fsm.Abs()), event, args, PLAIN).machine
      ensures View() == Raised(old(fsm.Abs()), old(View()), event, args)
    {
      ghost var m0, env0 := fsm.Abs(), View();
      var result, calls := fsm.Event(event, args, PLAIN);
      ghost var m1 := fsm.Abs();
      var i := 0;
      while i < |calls|
        invariant 0 <= i <= |calls|
        invariant fsm.Abs() == m1
        invariant Effects(Called(calls), args, env0) == Effects(Called(calls)[i..], args, View())
      {
        assert Called(calls)[i..][0] == calls[i].callback;
        assert Called(calls)[i..][1..] == Called(calls)[i + 1..];
        Invoke(calls[i].callback, args);
        i := i + 1;
      }
      if result != F.Done(None) {
        panicked := true;
      }
    }

    /** The stop event, from either state of the loop head. */
    method RaiseStopped(msg: string, st: Status, err: Option<string>)
      requires Machine() && deferTimer != Unset
      requires fsm.current == DEFERRED || (fsm.current == PINGING && stopPollCh.Open?)
      modifies this`status, this`lastError, this`stopPollCh, this`deferTimer, this`maxPollTimer, this`panicked
      modifies fsm`current, fsm`transition
      ensures Machine() && fsm.current == STOPPED
      ensures View() == old(View()).(status := st, lastError := err,
                                     stopPoll := if old(fsm.current) == PINGING then Closed else old(stopPollCh),
                                     deferTimer := if old(fsm.current) == DEFERRED then Idle else old(deferTimer))
    {
      AllowedRaise(fsm.Abs(), View(), STOPPED, StopArgs(msg, st, err));
      AllowedEventSucceeds(fsm.Abs(), STOPPED, StopArgs(msg, st, err));
      Raise(STOPPED, StopArgs(msg, st, err));
    }

    /** The defer event, from the initial or the stopped state. */
    method RaiseDeferred(st: Status)
      requires Machine() && (fsm.current == INIT || (fsm.current == STOPPED && deferTimer != Unset))
      modifies this`status, this`lastError, this`stopPollCh, this`deferTimer, this`maxPollTimer, this`panicked
      modifies fsm`current, fsm`transition
      ensures Machine() && fsm.current == DEFERRED
      ensures View() == old(View()).(status := st, lastError := None, deferTimer := Armed,
                                     maxPollTimer := if old(fsm.current) == INIT then Armed else old(maxPollTimer))
    {
      AllowedRaise(fsm.Abs(), View(), DEFERRED, DeferArgs(st));
      AllowedEventSucceeds(fsm.Abs(), DEFERRED, DeferArgs(st));
      Raise(DEFERRED, DeferArgs(st));
    }

    method Invoke(cb: Callback, args: Args)
      modifies this`status, this`lastError, this`stopPollCh, this`deferTimer, this`maxPollTimer, this`panicked
      ensures View() == Effect(cb, args, old(View()))
    {
      match cb
      case LeaveInit =>
        maxPollTimer := Armed;
        deferTimer := Armed;
      case EnterDeferred =>
        if !args.DeferArgs? || deferTimer.Unset? {
          panicked := true;
        } else {
          deferTimer := Armed;
          SetStatus(args.status, None);
        }
      case ExitDeferred =>
        if deferTimer.Unset? {
          panicked := true;
        } else {
          deferTimer := Idle;
        }
      case EnterPinging =>
        stopPollCh := Open;
        if !args.PingArgs? {
          panicked := true;
        } else {
          SetStatus(Pinging, None);
        }
      case ExitPinging =>
        if stopPollCh.Open? {
          stopPollCh := Closed;
        } else {
          panicked := true;
        }
      case EnterStopped =>
        if !args.StopArgs? {
          panicked := true;
        } else {
          SetStatus(args.status, args.err);
        }
      case ExitStopped =>
    }

    method SetStatus(s: Status, err: Option<string>)
      modifies this`status, this`lastError
      ensures status == s && lastError == err
    {
      status, lastError := s, err;
    }

    /** The deferred function of `start`: whatever ended the loop, the session reports Stopped without error. */
    method Exit()
      modifies this`running, this`status, this`lastError
      ensures !running && status == Stopped && lastError.None?
    {
      running := false;
      SetStatus(Stopped, None);
    }

    /** One turn of the select loop. A tick is delivered only by an armed timer. */
    method Handle(input: Input)
      requires Valid() && running
      modifies this, fsm`current, fsm`transition
      ensures Valid()
      ensures Abs() == Next(old(Abs()), input)
    {
      match input
      case MaxPollTick(_) =>
        HandleMaxPollTick();
      case DeferTick =>
        HandleDeferTick();
      case NewMail(tooFast, push, ignore) =>
        HandleNewMail(tooFast, push, ignore);
      case ReRegister(_) =>
        End("Client needs reregister, stopping poll", Stopped, None);
      case PollError(err) =>
        End("Error thrown: " + err + ", stopping poll", Error, Some(err));
      case Cmd(PingerStop) =>
        HandleStop();
      case Cmd(PingerDefer) =>
        HandleDefer();
      case Cmd(UnknownCommand(_)) =>
    }

    method HandleMaxPollTick()
      requires Valid() && running
      modifies this, fsm`current, fsm`transition
      ensures Valid()
      ensures Abs() == old(Abs()).(phase := Ended)
    {
      maxPollTimer := Idle;
      End("maxPollTimer expired. Stopping everything.", Stopped, None);
    }

    method HandleStop()
      requires Valid() && running
      modifies this, fsm`current, fsm`transition
      ensures Valid()
      ensures Abs() == old(Abs()).(phase := Ended, stopAllClosed := true)
    {
      CloseStopAll();
      End("Got PingerStop command", Stopped, None);
    }

    /** close(stopAllCh): closing it twice panics. */
    method CloseStopAll()
      modifies this`stopAllCh, this`panicked
      ensures stopAllCh.Closed?
      ensures panicked == (old(panicked) || !old(stopAllCh).Open?)
    {
      panicked := panicked || !stopAllCh.Open?;
      stopAllCh := Closed;
    }

    /** Stops the machine and returns from the loop. */
    method End(msg: string, st: Status, err: Option<string>)
      requires Machine() && running && deferTimer != Unset && !panicked
      requires fsm.current == DEFERRED || fsm.current == PINGING
      requires stopPollCh.Open? <==> fsm.current == PINGING
      requires rearmingCount <= MAX_REARM && (!isImap ==> rearmingCount == 0)
      modifies this`status, this`lastError, this`stopPollCh, this`deferTimer, this`maxPollTimer, this`panicked, this`running
      modifies fsm`current, fsm`transition
      ensures Valid() && !running && !stopPollCh.Open?
    {
      RaiseStopped(msg, st, err);
      Exit();
    }

    method HandleDeferTick()
      requires Valid() && running
      modifies this, fsm`current, fsm`transition
      ensures Valid()
      ensures Abs() == old(Abs()).(phase := Polling)
    {
      if deferTimer.Armed? {
        deferTimer := Idle;
        RaisePinging();
      }
    }

    /** The ping event, from the deferred state. */
    method RaisePinging()
      requires Machine() && fsm.current == DEFERRED && deferTimer != Unset
      modifies this`status, this`lastError, this`stopPollCh, this`deferTimer, this`maxPollTimer, this`panicked
      modifies fsm`current, fsm`transition
      ensures Machine() && fsm.current == PINGING
      ensures View() == old(View()).(status := Pinging, lastError := None, stopPoll := Open, deferTimer := Idle)
    {
      AllowedRaise(fsm.Abs(), View(), PINGING, PingArgs);
      AllowedEventSucceeds(fsm.Abs(), PINGING, PingArgs);
      Raise(PINGING, PingArgs);
    }

    method HandleDefer()
      requires Valid() && running
      modifies this, fsm`current, fsm`transition
      ensures Valid()
      ensures Abs() == old(Abs()).(phase := Waiting, rearm := 0)
    {
      RaiseStopped("Got PingerDefer command", Stopped, None);
      rearmingCount := 0;
      RaiseDeferred(Deferred);
    }

    method HandleNewMail(tooFast: bool, push: Push, ignore: bool)
      requires Valid() && running
      modifies this, fsm`current, fsm`transition
      ensures Valid()
      ensures Abs() == AfterMail(old(Abs()), tooFast, push, ignore)
    {
      var attempt := !tooFast || rearmingCount == 0;
      CountMail(attempt);
      if attempt && push != Sent && !ignore {
        Abort();
      } else {
        StopAndRearm(StopMessage(attempt));
      }
    }

    ghost method CountMail(attempt: bool)
      requires Valid() && running
      modifies this`mails, this`pushes
      ensures Valid()
      ensures Abs() == old(Abs()).(mails := old(mails) + 1, pushes := old(pushes) + if attempt then 1 else 0)
    {
      mails, pushes := mails + 1, pushes + if attempt then 1 else 0;
    }

    /** Returns from the loop after a failed push, without telling the machine. */
    method Abort()
      requires Valid() && running
      modifies this`running, this`status, this`lastError
      ensures Valid()
      ensures Abs() == old(Abs()).(phase := Ended, pollLeftOpen := old(Abs()).phase.Polling?)
    {
      Exit();
    }

    method StopAndRearm(msg: string)
      requires Valid() && running
      modifies this, fsm`current, fsm`transition
      ensures Valid()
      ensures Abs() == if isImap && old(rearmingCount) < MAX_REARM
                       then old(Abs()).(phase := Waiting, rearm := old(rearmingCount) + 1)
                       else old(Abs()).(phase := Ended)
    {
      RaiseStopped(msg, Stopped, None);
      if isImap && rearmingCount < MAX_REARM {
        rearmingCount := rearmingCount + 1;
        RaiseDeferred(ReDeferred);
      } else {
        Exit();
      }
    }

    /** The select loop on everything the channels and timers deliver, until the loop returns. */
    method Loop(inputs: seq<Input>)
      requires Valid()
      modifies this, fsm`current, fsm`transition
      ensures Valid()
      ensures Abs() == Run(old(Abs()), inputs)
    {
      var i := 0;
      EndedStays(Abs(), inputs);
      while i < |inputs| && running
        invariant 0 <= i <= |inputs|
        invariant Valid()
        invariant Run(old(Abs()), inputs) == Run(Abs(), inputs[i..])
      {
        assert inputs[i..][1..] == inputs[i + 1..];
        Handle(inputs[i]);
        i := i + 1;
      }
      EndedStays(Abs(), inputs[i..]);
    }
  }

  /**
   * A whole session on any inputs: whether its loop has returned, whether the channel that stops everything is
   * closed, and the status it reports.
   */
  method RunSession(protocol: string, inputs: seq<Input>) returns (client: MailClient)
    ensures var isImap := protocol == "IMAP";
            && client.Valid()
            && (client.running <==> !Returns(isImap, inputs))
            && (client.stopAllCh.Closed? <==> exists i :: StoppedAt(isImap, inputs, i))
            && client.status == (if Returns(isImap, inputs) then Stopped
                                 else if LastKnown(inputs) == Some(DeferTick) then Pinging
                                 else if MailsSince(inputs) == 0 then Deferred
                                 else ReDeferred)
  {
    client := new MailClient(protocol);
    client.Loop(inputs);
    RunEndsIff(protocol == "IMAP", inputs);
    StopAllClosedIff(protocol == "IMAP", inputs);
  }
}
