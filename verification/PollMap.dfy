/**
 * The RPC backend's map of polling sessions. Each locked section of RPCStartPoll, RPCStopPoll and
 * createNewPingerSession is one atomic step; session creation, detached stop calls and the end of
 * sessions happen between them, in any order.
 */
module PollMap {
  import opened Common
  import opened Session
  import Keys

  type Client = nat

  /**
   * `creating` holds the keys of creators that have not created a client yet, `awaiting` the clients that
   * were created and wait for the lock. `stopping` holds the detached stop calls not yet run, `sent` the
   * PingerStop commands put on a client's channel, `skipped` the clients whose stop call found them cleaned up.
   */
  datatype Server = Server(
    pollMap: map<string, Client>,
    creating: multiset<string>,
    awaiting: map<Client, string>,
    made: map<Client, string>,
    retired: set<Client>,
    stopping: multiset<Client>,
    sent: multiset<Client>,
    skipped: set<Client>,
    gone: set<Client>)
  {
    predicate Registered(c: Client) {
      c in made && made[c] in pollMap && pollMap[made[c]] == c
    }

    /** Stops dispatched to a client: not yet run, sent, or found unnecessary. */
    function Stops(c: Client): nat {
      stopping[c] + sent[c] + if c in skipped then 1 else 0
    }

    /** Every client is in exactly one place, and has been stopped once if retired, never otherwise. */
    ghost predicate Inv() {
      && (forall k :: k in pollMap ==> pollMap[k] in made && made[pollMap[k]] == k)
      && (forall c :: c in awaiting ==> c in made && made[c] == awaiting[c])
      && (forall c :: c in made ==>
            && (c in awaiting || Registered(c) || c in retired)
            && !(c in awaiting && Registered(c))
            && !(c in awaiting && c in retired)
            && !(Registered(c) && c in retired))
      && (forall c :: c in retired ==> c in made)
      && (forall c :: Stops(c) == if c in retired then 1 else 0)
      && skipped <= gone
    }
  }

  function Fresh(): Server {
    Server(map[], multiset{}, map[], map[], {}, multiset{}, multiset{}, {}, {})
  }

  datatype Step =
    | Start(key: string)
    | CreateFails(key: string)
    | Create(key: string, client: Client)
    | Register(client: Client)
    | Stop(key: string)
    | RunStop(client: Client)
    | SessionEnds(client: Client)

  predicate Enabled(s: Server, step: Step) {
    match step
    case Start(_) => true
    case CreateFails(k) => k in s.creating
    case Create(k, c) => k in s.creating && c !in s.made
    case Register(c) => c in s.awaiting
    case Stop(_) => true
    case RunStop(c) => c in s.stopping
    case SessionEnds(c) => c in s.made
  }

  /** client.stop(): nothing is sent to a client that has cleaned up. */
  function CallStop(s: Server, c: Client): Server {
    if c in s.gone then s.(skipped := s.skipped + {c}) else s.(sent := s.sent + multiset{c})
  }

  function Apply(s: Server, step: Step): Server
    requires Enabled(s, step)
  {
    match step
    case Start(k) =>
      var s' := s.(creating := s.creating + multiset{k});
      if k !in s.pollMap then s'
      else s'.(pollMap := s.pollMap - {k}, retired := s.retired + {s.pollMap[k]}, sent := s.sent + multiset{s.pollMap[k]})
    case CreateFails(k) => s.(creating := s.creating - multiset{k})
    case Create(k, c) =>
      s.(creating := s.creating - multiset{k}, awaiting := s.awaiting[c := k], made := s.made[c := k])
    case Register(c) =>
      var k := s.awaiting[c];
      var s' := s.(awaiting := s.awaiting - {c});
      if k in s.pollMap then CallStop(s'.(retired := s.retired + {c}), c)
      else s'.(pollMap := s.pollMap[k := c])
    case Stop(k) =>
      if k !in s.pollMap then s
      else s.(pollMap := s.pollMap - {k}, retired := s.retired + {s.pollMap[k]}, stopping := s.stopping + multiset{s.pollMap[k]})
    case RunStop(c) => CallStop(s.(stopping := s.stopping - multiset{c}), c)
    case SessionEnds(c) => s.(gone := s.gone + {c})
  }

  /** An interleaving: each step is enabled when it is taken. */
  ghost predicate Feasible(s: Server, steps: seq<Step>)
    decreases |steps|
  {
    steps == [] || (Enabled(s, steps[0]) && Feasible(Apply(s, steps[0]), steps[1..]))
  }

  ghost function After(s: Server, steps: seq<Step>): Server
    requires Feasible(s, steps)
    decreases |steps|
  {
    if steps == [] then s else After(Apply(s, steps[0]), steps[1..])
  }

  /** One client leaves the map and is sent a stop. */
  lemma ReplacedKeepsInv(s: Server, s': Server, k: string)
    requires s.Inv() && k in s.pollMap
    requires s' == Apply(s, Start(k))
    ensures s'.Inv()
  {
    var c := s.pollMap[k];
    assert s.Registered(c);
    assert forall d :: d in s.made && d != c ==> s'.Registered(d) == s.Registered(d);
    assert forall d :: s'.Stops(d) == s.Stops(d) + if d == c then 1 else 0;
  }

  lemma StartKeepsInv(s: Server, k: string)
    requires s.Inv()
    ensures Apply(s, Start(k)).Inv()
  {
    var s' := Apply(s, Start(k));
    if k in s.pollMap {
      ReplacedKeepsInv(s, s', k);
    } else {
      assert forall d :: s'.Registered(d) == s.Registered(d) && s'.Stops(d) == s.Stops(d);
    }
  }

  lemma StopKeepsInv(s: Server, k: string)
    requires s.Inv()
    ensures Apply(s, Stop(k)).Inv()
  {
    if k in s.pollMap {
      var s' := Apply(s, Stop(k));
      var c := s.pollMap[k];
      assert s.Registered(c);
      assert forall d :: d in s.made && d != c ==> s'.Registered(d) == s.Registered(d);
      assert forall d :: s'.Stops(d) == s.Stops(d) + if d == c then 1 else 0;
    }
  }

  lemma CreateKeepsInv(s: Server, k: string, c: Client)
    requires s.Inv() && k in s.creating && c !in s.made
    ensures Apply(s, Create(k, c)).Inv()
  {
    var s' := Apply(s, Create(k, c));
    assert !s'.Registered(c);
    assert forall d :: d != c ==> s'.Registered(d) == s.Registered(d);
    assert forall d :: s'.Stops(d) == s.Stops(d);
  }

  /** The client lost the race: another one is registered under its key. */
  lemma LosingKeepsInv(s: Server, c: Client)
    requires s.Inv() && c in s.awaiting && s.awaiting[c] in s.pollMap
    ensures Apply(s, Register(c)).Inv()
  {
    var s' := Apply(s, Register(c));
    assert forall d :: s'.Registered(d) == s.Registered(d);
    assert s.Stops(c) == 0;
    assert forall d :: s'.Stops(d) == s.Stops(d) + if d == c then 1 else 0;
  }

  lemma WinningKeepsInv(s: Server, c: Client)
    requires s.Inv() && c in s.awaiting && s.awaiting[c] !in s.pollMap
    ensures Apply(s, Register(c)).Inv()
  {
    var s' := Apply(s, Register(c));
    assert s'.Registered(c);
    assert forall d :: d != c ==> s'.Registered(d) == s.Registered(d);
    assert forall d :: s'.Stops(d) == s.Stops(d);
  }

  lemma RegisterKeepsInv(s: Server, c: Client)
    requires s.Inv() && c in s.awaiting
    ensures Apply(s, Register(c)).Inv()
  {
    if s.awaiting[c] in s.pollMap {
      LosingKeepsInv(s, c);
    } else {
      WinningKeepsInv(s, c);
    }
  }

  lemma RunStopKeepsInv(s: Server, c: Client)
    requires s.Inv() && c in s.stopping
    ensures Apply(s, RunStop(c)).Inv()
  {
    var s' := Apply(s, RunStop(c));
    assert s.Stops(c) >= 1;
    assert c in s.retired && c !in s.skipped;
    assert forall d :: s'.Registered(d) == s.Registered(d) && s'.Stops(d) == s.Stops(d);
  }

  lemma StepKeepsInv(s: Server, step: Step)
    requires s.Inv() && Enabled(s, step)
    ensures Apply(s, step).Inv()
  {
    match step
    case Start(k) => StartKeepsInv(s, k);
    case CreateFails(k) =>
      var s' := Apply(s, step);
      assert forall d :: s'.Registered(d) == s.Registered(d) && s'.Stops(d) == s.Stops(d);
    case Create(k, c) => CreateKeepsInv(s, k, c);
    case Register(c) => RegisterKeepsInv(s, c);
    case Stop(k) => StopKeepsInv(s, k);
    case RunStop(c) => RunStopKeepsInv(s, c);
    case SessionEnds(c) =>
      var s' := Apply(s, step);
      assert forall d :: s'.Registered(d) == s.Registered(d) && s'.Stops(d) == s.Stops(d);
  }

  /**
   * In every interleaving, over any keys and any number of clients, each created client is in exactly one
   * place: waiting to be registered, registered under its own key, or retired with exactly one stop
   * dispatched; no client is sent more than one PingerStop.
   */
  lemma {:induction false} EveryRunKeepsInv(s: Server, steps: seq<Step>)
    requires s.Inv() && Feasible(s, steps)
    ensures After(s, steps).Inv()
    ensures forall c :: After(s, steps).sent[c] <= 1
    decreases |steps|
  {
    if steps == [] {
      assert forall c :: s.sent[c] <= s.Stops(c) <= 1;
    } else {
      StepKeepsInv(s, steps[0]);
      EveryRunKeepsInv(Apply(s, steps[0]), steps[1..]);
    }
  }

  lemma FreshInv()
    ensures Fresh().Inv()
  {
    assert forall c :: Fresh().Stops(c) == 0;
  }

  // ---------------------------------------------------------------------------------------
  // What a stop request achieves

  /** A creator for the key has started and has not finished. */
  ghost predicate InFlight(s: Server, k: string) {
    k in s.creating || exists c :: c in s.awaiting && s.awaiting[c] == k
  }

  /** Neither a registered session nor a creator on its way to one. */
  ghost predicate Quiet(s: Server, k: string) {
    k !in s.pollMap && !InFlight(s, k)
  }

  lemma QuietStep(s: Server, k: string, step: Step)
    requires s.Inv() && Quiet(s, k) && Enabled(s, step) && step != Start(k)
    ensures Quiet(Apply(s, step), k)
  {
    var s' := Apply(s, step);
    forall c | c in s'.awaiting ensures s'.awaiting[c] != k {
      assert c in s.awaiting ==> s.awaiting[c] != k;
    }
  }

  lemma {:induction false} QuietRun(s: Server, k: string, steps: seq<Step>)
    requires s.Inv() && Quiet(s, k) && Feasible(s, steps) && Start(k) !in steps
    ensures Quiet(After(s, steps), k)
    decreases |steps|
  {
    if steps != [] {
      assert steps[0] in steps;
      QuietStep(s, k, steps[0]);
      StepKeepsInv(s, steps[0]);
      QuietRun(Apply(s, steps[0]), k, steps[1..]);
    }
  }

  /** A creator in flight can still register its client, without any further start request. */
  lemma CreatorRegisters(s: Server, k: string) returns (steps: seq<Step>)
    requires s.Inv() && k !in s.pollMap && InFlight(s, k)
    ensures Feasible(s, steps) && Start(k) !in steps && k in After(s, steps).pollMap
  {
    if c :| c in s.awaiting && s.awaiting[c] == k {
      steps := [Register(c)];
      var s1 := Apply(s, steps[0]);
      assert steps[1..] == [] && Feasible(s1, []);
      assert After(s, steps) == After(s1, steps[1..]) == s1;
    } else {
      var c := Above(s.made.Keys);
      steps := CreateAndRegister(s, k, c);
    }
  }

  lemma {:induction false} Above(s: set<Client>) returns (c: Client)
    ensures forall d :: d in s ==> d < c
    decreases s
  {
    if s == {} {
      c := 0;
    } else {
      var d :| d in s;
      var b := Above(s - {d});
      c := if d < b then b else d + 1;
      assert forall e :: e in s && e != d ==> e in s - {d};
    }
  }

  /**
   * After a stop request the key stays without a session until the next start request, in every
   * continuation, exactly when no creator for it was in flight at the time.
   */
  lemma StopSticksIff(s: Server, k: string)
    requires s.Inv()
    ensures var s' := Apply(s, Stop(k));
            (forall steps :: Feasible(s', steps) && Start(k) !in steps ==> k !in After(s', steps).pollMap)
            <==> !InFlight(s, k)
  {
    var s' := Apply(s, Stop(k));
    StepKeepsInv(s, Stop(k));
    assert InFlight(s', k) <==> InFlight(s, k);
    if InFlight(s, k) {
      var steps := CreatorRegisters(s', k);
    } else {
      forall steps | Feasible(s', steps) && Start(k) !in steps ensures k !in After(s', steps).pollMap {
        QuietRun(s', k, steps);
      }
    }
  }

  // ---------------------------------------------------------------------------------------
  // What a start request achieves

  function StartsOf(steps: seq<Step>, k: string): nat {
    if steps == [] then 0 else (if steps[0] == Start(k) then 1 else 0) + StartsOf(steps[1..], k)
  }

  /** The creators for a key that have created a client or failed. */
  function CreatedOf(steps: seq<Step>, k: string): nat {
    if steps == [] then 0 else (if Creates(steps[0], k) then 1 else 0) + CreatedOf(steps[1..], k)
  }

  predicate Creates(step: Step, k: string) {
    (step.Create? || step.CreateFails?) && step.key == k
  }

  lemma StepCounts(s: Server, step: Step, k: string)
    requires Enabled(s, step)
    ensures s.creating[k] + (if step == Start(k) then 1 else 0) ==
            (if Creates(step, k) then 1 else 0) + Apply(s, step).creating[k]
  {
  }

  lemma {:induction false} CreatorsCounted(s: Server, steps: seq<Step>, k: string)
    requires Feasible(s, steps)
    ensures s.creating[k] + StartsOf(steps, k) == CreatedOf(steps, k) + After(s, steps).creating[k]
    decreases |steps|
  {
    if steps != [] {
      StepCounts(s, steps[0], k);
      CreatorsCounted(Apply(s, steps[0]), steps[1..], k);
    }
  }

  /** In every run, each start request launched one creator, which has created a client, failed, or is under way. */
  lemma EveryStartCreates(steps: seq<Step>, k: string)
    requires Feasible(Fresh(), steps)
    ensures StartsOf(steps, k) == CreatedOf(steps, k) + After(Fresh(), steps).creating[k]
  {
    CreatorsCounted(Fresh(), steps, k);
  }

  /** A start request takes the old session off the map and sends it its one stop, at once. */
  lemma StartStopsOld(s: Server, k: string)
    requires s.Inv()
    ensures k !in Apply(s, Start(k)).pollMap
    ensures k in s.pollMap ==> s.sent[s.pollMap[k]] == 0 && Apply(s, Start(k)).sent[s.pollMap[k]] == 1
  {
    if k in s.pollMap {
      assert s.Registered(s.pollMap[k]) && s.Stops(s.pollMap[k]) == 0;
    }
  }

  /** A creator under way and a client not made yet: the client can be registered. */
  lemma CreateAndRegister(s: Server, k: string, c: Client) returns (steps: seq<Step>)
    requires k in s.creating && k !in s.pollMap && c !in s.made
    ensures steps == [Create(k, c), Register(c)] && Feasible(s, steps)
    ensures k in After(s, steps).pollMap && After(s, steps).pollMap[k] == c
  {
    steps := [Create(k, c), Register(c)];
    var s1 := Apply(s, steps[0]);
    var s2 := Apply(s1, steps[1]);
    assert steps[1..] == [Register(c)] && [Register(c)][1..] == [];
    assert Feasible(s2, []) && Feasible(s1, steps[1..]);
    assert After(s, steps) == After(s1, steps[1..]) == After(s2, []) == s2;
  }

  /** After a start request, and without any further one, a client made after it can be registered under the key. */
  lemma StartRegisters(s: Server, k: string) returns (steps: seq<Step>, c: Client)
    requires s.Inv()
    ensures Feasible(Apply(s, Start(k)), steps) && (forall j :: Start(j) !in steps) && c !in s.made
    ensures var s' := After(Apply(s, Start(k)), steps);
            k in s'.pollMap && s'.pollMap[k] == c
  {
    c := Above(s.made.Keys);
    steps := CreateAndRegister(Apply(s, Start(k)), k, c);
  }

  // ---------------------------------------------------------------------------------------
  // Sessions that have ended

  lemma GoneStep(s: Server, step: Step, c: Client)
    requires s.Inv() && Enabled(s, step) && c in s.made && c in s.gone && step != Start(s.made[c])
    ensures var s' := Apply(s, step);
            c in s'.made && s'.made[c] == s.made[c] && c in s'.gone && s'.sent[c] == s.sent[c]
  {
    if step.Start? && step.key in s.pollMap {
      assert s.made[s.pollMap[step.key]] == step.key;
    }
  }

  lemma {:induction false} GoneRun(s: Server, steps: seq<Step>, c: Client)
    requires s.Inv() && Feasible(s, steps) && c in s.made && c in s.gone && Start(s.made[c]) !in steps
    ensures After(s, steps).sent[c] == s.sent[c]
    decreases |steps|
  {
    if steps != [] {
      var s' := Apply(s, steps[0]);
      assert steps[0] in steps;
      StepKeepsInv(s, steps[0]);
      GoneStep(s, steps[0], c);
      GoneRun(s', steps[1..], c);
    }
  }

  /** Once a session has cleaned up, only a start request for its key still sends it a stop. */
  lemma EndedIsNotStopped(s: Server, steps: seq<Step>, c: Client)
    requires s.Inv() && c in s.made && Feasible(Apply(s, SessionEnds(c)), steps) && Start(s.made[c]) !in steps
    ensures After(Apply(s, SessionEnds(c)), steps).sent[c] == s.sent[c]
  {
    StepKeepsInv(s, SessionEnds(c));
    GoneRun(Apply(s, SessionEnds(c)), steps, c);
  }

  // ---------------------------------------------------------------------------------------
  // Requests of different sessions do not meet

  function StepKey(step: Step): Option<string> {
    match step
    case Start(k) => Some(k)
    case Stop(k) => Some(k)
    case _ => None
  }

  /** Registered under the key, and not stopped. */
  ghost predicate Undisturbed(s: Server, k: string, c: Client) {
    k in s.pollMap && s.pollMap[k] == c && s.Stops(c) == 0
  }

  lemma StepUndisturbed(s: Server, step: Step, k: string, c: Client)
    requires s.Inv() && Enabled(s, step) && Undisturbed(s, k, c) && StepKey(step) != Some(k)
    ensures Undisturbed(Apply(s, step), k, c)
  {
    var s' := Apply(s, step);
    StepKeepsInv(s, step);
    assert k in s'.pollMap && s'.pollMap[k] == c;
    assert s'.Registered(c);
  }

  lemma {:induction false} RunUndisturbed(s: Server, steps: seq<Step>, k: string, c: Client)
    requires s.Inv() && Feasible(s, steps) && Undisturbed(s, k, c)
    requires forall step :: step in steps ==> StepKey(step) != Some(k)
    ensures Undisturbed(After(s, steps), k, c)
    decreases |steps|
  {
    if steps != [] {
      assert steps[0] in steps;
      StepKeepsInv(s, steps[0]);
      StepUndisturbed(s, steps[0], k, c);
      RunUndisturbed(Apply(s, steps[0]), steps[1..], k, c);
    }
  }

  /** The step is a request for valid ids other than these. */
  ghost predicate ForOthers(mine: Keys.Ids, step: Step) {
    StepKey(step).Some? ==>
      exists other :: Keys.Valid(other) && other != mine && StepKey(step).value == Keys.PollMapKey(other)
  }

  /**
   * In every run whose start and stop requests carry other valid ids, however creators, stops and sessions
   * interleave, a session stays registered and is not stopped.
   */
  lemma OtherSessionsUntouched(s: Server, steps: seq<Step>, mine: Keys.Ids)
    requires s.Inv() && Feasible(s, steps) && Keys.Valid(mine) && Keys.PollMapKey(mine) in s.pollMap
    requires forall step :: step in steps ==> ForOthers(mine, step)
    ensures Undisturbed(After(s, steps), Keys.PollMapKey(mine), s.pollMap[Keys.PollMapKey(mine)])
  {
    var k := Keys.PollMapKey(mine);
    forall step | step in steps
      ensures StepKey(step) != Some(k)
    {
      assert ForOthers(mine, step);
      if StepKey(step) == Some(k) {
        var other :| Keys.Valid(other) && other != mine && k == Keys.PollMapKey(other);
        Keys.PollKeysEqualIff(mine, other);
      }
    }
    assert s.Registered(s.pollMap[k]);
    RunUndisturbed(s, steps, k, s.pollMap[k]);
  }

  // ---------------------------------------------------------------------------------------
  // The backend object

  datatype ReplyCode = ReplyError | ReplyOK | ReplyWarn

  /** A session whose poll was rearmed after new mail cannot be deferred until it polls again. */
  predicate Deferrable(st: Status) {
    st == Pinging || st == Deferred
  }

  lemma DeferrableIff(s: State)
    ensures Deferrable(s.Visible()) <==> s.phase.Polling? || (s.phase.Waiting? && s.rearm == 0)
  {
  }

  class BackendPolling {
    var pollMap: map<string, Client>
    ghost var creating: multiset<string>
    ghost var awaiting: map<Client, string>
    ghost var made: map<Client, string>
    ghost var retired: set<Client>
    ghost var stopping: multiset<Client>
    ghost var sent: multiset<Client>
    ghost var skipped: set<Client>
    ghost var gone: set<Client>

    ghost function Abs(): Server
      reads this
    {
      Server(pollMap, creating, awaiting, made, retired, stopping, sent, skipped, gone)
    }

    constructor ()
      ensures Abs() == Fresh() && Abs().Inv()
    {
      pollMap, creating, awaiting, made := map[], multiset{}, map[], map[];
      retired, stopping, sent, skipped, gone := {}, multiset{}, multiset{}, {}, {};
      new;
      FreshInv();
    }

    /** client.Action(PingerStop). */
    method SendStop(c: Client)
      modifies this`sent
      ensures sent == old(sent) + multiset{c}
    {
      sent := sent + multiset{c};
    }

    method RPCStartPoll(key: string, status: Status) returns (code: ReplyCode)
      requires Abs().Inv()
      modifies this
      ensures Abs() == Apply(old(Abs()), Start(key)) && Abs().Inv()
      ensures code == if key in old(pollMap) && status == Error then ReplyWarn else ReplyOK
    {
      StepKeepsInv(Abs(), Start(key));
      code := ReplyOK;
      if key in pollMap {
        if status == Error {
          code := ReplyWarn;
        }
        Replace(key);
      }
      creating := creating + multiset{key};
    }

    method Replace(key: string)
      requires key in pollMap
      modifies this`pollMap, this`retired, this`sent
      ensures pollMap == old(pollMap) - {key}
      ensures retired == old(retired) + {old(pollMap)[key]} && sent == old(sent) + multiset{old(pollMap)[key]}
    {
      var client := pollMap[key];
      SendStop(client);
      pollMap := pollMap - {key};
      retired := retired + {client};
    }

    /** The locked part of createNewPingerSession; `cleanedUp` is stop's test of the client's mailClient. */
    method RegisterSession(key: string, client: Client, cleanedUp: bool)
      requires Abs().Inv() && client in awaiting && awaiting[client] == key
      requires cleanedUp == (client in gone)
      modifies this
      ensures Abs() == Apply(old(Abs()), Register(client)) && Abs().Inv()
    {
      StepKeepsInv(Abs(), Register(client));
      if key in pollMap {
        StopLoser(client, cleanedUp);
      } else {
        PutWinner(key, client);
      }
    }

    method StopLoser(client: Client, cleanedUp: bool)
      requires client in awaiting && awaiting[client] in pollMap && cleanedUp == (client in gone)
      modifies this`awaiting, this`retired, this`skipped, this`sent
      ensures Abs() == Apply(old(Abs()), Register(client))
    {
      awaiting := awaiting - {client};
      retired := retired + {client};
      if cleanedUp {
        skipped := skipped + {client};
      } else {
        SendStop(client);
      }
    }

    method PutWinner(key: string, client: Client)
      requires client in awaiting && awaiting[client] == key && key !in pollMap
      modifies this`awaiting, this`pollMap
      ensures Abs() == Apply(old(Abs()), Register(client))
    {
      awaiting := awaiting - {client};
      pollMap := pollMap[key := client];
    }

    method RPCStopPoll(key: string) returns (code: ReplyCode, message: string)
      requires Abs().Inv()
      modifies this
      ensures Abs() == Apply(old(Abs()), Stop(key)) && Abs().Inv()
      ensures (code, message) == if key in old(pollMap) then (ReplyOK, "Stopped") else (ReplyError, "No active sessions found")
    {
      StepKeepsInv(Abs(), Stop(key));
      if key in pollMap {
        var client := pollMap[key];
        pollMap := pollMap - {key};
        retired := retired + {client};
        stopping := stopping + multiset{client};
        return ReplyOK, "Stopped";
      }
      return ReplyError, "No active sessions found";
    }

    /** Defer reads the map without the lock; a session in error is reported as an RPC error. */
    method RPCDeferPoll(key: string, status: Status, lastError: Option<string>)
      returns (code: ReplyCode, rpcError: Option<string>, deferred: Option<Client>)
      ensures deferred.Some? <==> key in pollMap && lastError.None? && Deferrable(status)
      ensures deferred.Some? ==> deferred.value == pollMap[key] && code == ReplyOK && rpcError.None?
      ensures rpcError == if key in pollMap then lastError else None
      ensures code == ReplyError <==> key !in pollMap || (lastError.None? && !Deferrable(status))
      ensures code != ReplyWarn
    {
      code, rpcError, deferred := ReplyOK, None, None;
      if key in pollMap {
        if lastError.Some? {
          rpcError := lastError;
        } else if status != Pinging && status != Deferred {
          code := ReplyError;
        } else {
          deferred := Some(pollMap[key]);
        }
      } else {
        code := ReplyError;
      }
    }

    /**
     * Defer, with the sessions of the registered clients: one is deferred exactly if it is the one registered
     * under the key and polls, or waits without having been rearmed. A session rearmed after new mail is
     * refused until it polls again.
     */
    method DeferSession(key: string, sessions: map<Client, MailClient>)
      returns (code: ReplyCode, rpcError: Option<string>, deferred: Option<Client>)
      requires key in pollMap ==> pollMap[key] in sessions && sessions[pollMap[key]].Valid()
      ensures rpcError.None?
      ensures deferred.Some? <==> code == ReplyOK
      ensures key !in pollMap ==> deferred.None?
      ensures key in pollMap ==>
                var s := sessions[pollMap[key]].Abs();
                deferred == if s.phase.Polling? || (s.phase.Waiting? && s.rearm == 0) then Some(pollMap[key]) else None
    {
      var status, lastError := Stopped, None;
      if key in pollMap {
        var session := sessions[pollMap[key]];
        status, lastError := session.Status();
        DeferrableIff(session.Abs());
      }
      code, rpcError, deferred := RPCDeferPoll(key, status, lastError);
    }
  }
}
