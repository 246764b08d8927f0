/**
 * The command channels of the sessions and the lock of the session map. A start request sends PingerStop to
 * the old session while it holds the lock; the channel holds ten commands, and a session whose loop has
 * returned receives no more.
 */
module Commands {
  import opened Common

  type Client = nat

  const CAPACITY := 10

  /** A start request that holds the lock until its stop command is on the channel. */
  datatype Request = Request(key: string, client: Client)

  datatype Net = Net(
    pollMap: map<string, Client>,
    queued: map<Client, nat>,
    returned: set<Client>,
    holder: Option<Request>)
  {
    ghost predicate Inv() {
      && (forall c :: c in queued ==> queued[c] <= CAPACITY)
      && (forall k :: k in pollMap ==> pollMap[k] in queued)
      && (holder.Some? ==> holder.value.key in pollMap && pollMap[holder.value.key] == holder.value.client)
    }

    predicate Full(c: Client) {
      c in queued && queued[c] >= CAPACITY
    }
  }

  datatype Step =
    | Register(key: string, client: Client)
    | Lose(key: string, client: Client)
    | Remove(key: string)
    | Lock(key: string)
    | Send
    | Queue(client: Client)
    | Receive(client: Client)
    | Return(client: Client)

  /** Whatever touches the map needs the lock; a full channel takes no command; a returned loop takes none off. */
  predicate Enabled(s: Net, step: Step) {
    match step
    case Register(k, c) => s.holder.None? && k !in s.pollMap && c !in s.queued
    case Lose(k, c) => s.holder.None? && k in s.pollMap && c !in s.queued
    case Remove(k) => s.holder.None? && k in s.pollMap
    case Lock(k) => s.holder.None? && k in s.pollMap
    case Send => s.holder.Some? && !s.Full(s.holder.value.client)
    case Queue(c) => c in s.queued && !s.Full(c)
    case Receive(c) => c in s.queued && s.queued[c] > 0 && c !in s.returned
    case Return(c) => c in s.queued
  }

  function Count(s: Net, c: Client): nat {
    if c in s.queued then s.queued[c] else 0
  }

  /** A client that lost the race is stopped under the lock too, but its channel is new and empty. */
  function Apply(s: Net, step: Step): Net
    requires Enabled(s, step)
  {
    match step
    case Register(k, c) => s.(pollMap := s.pollMap[k := c], queued := s.queued[c := 0])
    case Lose(_, c) => s.(queued := s.queued[c := 1])
    case Remove(k) => s.(pollMap := s.pollMap - {k})
    case Lock(k) => s.(holder := Some(Request(k, s.pollMap[k])))
    case Send =>
      var r := s.holder.value;
      s.(queued := s.queued[r.client := Count(s, r.client) + 1], pollMap := s.pollMap - {r.key}, holder := None)
    case Queue(c) => s.(queued := s.queued[c := s.queued[c] + 1])
    case Receive(c) => s.(queued := s.queued[c := s.queued[c] - 1])
    case Return(c) => s.(returned := s.returned + {c})
  }

  ghost predicate Feasible(s: Net, steps: seq<Step>)
    decreases |steps|
  {
    steps == [] || (Enabled(s, steps[0]) && Feasible(Apply(s, steps[0]), steps[1..]))
  }

  ghost function After(s: Net, steps: seq<Step>): Net
    requires Feasible(s, steps)
    decreases |steps|
  {
    if steps == [] then s else After(Apply(s, steps[0]), steps[1..])
  }

  function Fresh(): Net {
    Net(map[], map[], {}, None)
  }

  lemma {:induction false} EveryRunKeepsInv(s: Net, steps: seq<Step>)
    requires s.Inv() && Feasible(s, steps)
    ensures After(s, steps).Inv()
    decreases |steps|
  {
    if steps != [] {
      EveryRunKeepsInv(Apply(s, steps[0]), steps[1..]);
    }
  }

  /** The request waits for a channel that is full and will never be emptied. */
  ghost predicate Stuck(s: Net) {
    s.holder.Some? && Count(s, s.holder.value.client) >= 10 && s.holder.value.client in s.returned
  }

  /** Once stuck, the lock is never released, in any continuation: every later request for the map waits forever. */
  lemma {:induction false} StuckForever(s: Net, steps: seq<Step>)
    requires Stuck(s) && Feasible(s, steps)
    ensures var s' := After(s, steps);
            && s'.holder == s.holder && s'.pollMap == s.pollMap && Stuck(s')
            && (forall step :: Enabled(s', step) ==> step.Queue? || step.Receive? || step.Return?)
    decreases |steps|
  {
    if steps != [] {
      StuckForever(Apply(s, steps[0]), steps[1..]);
    }
  }

  /**
   * A start request that holds the lock can release it exactly when its session's channel has room or its
   * loop is still running; it takes at most two steps then.
   */
  lemma ReleasesIff(s: Net)
    requires s.Inv() && s.holder.Some?
    ensures (exists steps :: Feasible(s, steps) && After(s, steps).holder.None?) <==> !Stuck(s)
  {
    if Stuck(s) {
      forall steps | Feasible(s, steps) ensures After(s, steps).holder.Some? {
        StuckForever(s, steps);
      }
    } else {
      var steps := Releasing(s);
    }
  }

  lemma Releasing(s: Net) returns (steps: seq<Step>)
    requires s.Inv() && s.holder.Some? && !Stuck(s)
    ensures |steps| <= 2 && Feasible(s, steps) && After(s, steps).holder.None?
  {
    var c := s.holder.value.client;
    if s.Full(c) {
      steps := [Receive(c), Send];
      var s1 := Apply(s, Receive(c));
      var s2 := Apply(s1, Send);
      assert steps[1..] == [Send] && [Send][1..] == [];
      assert Feasible(s2, []) && Feasible(s1, [Send]) && Feasible(s, steps);
      assert After(s, steps) == After(s1, [Send]) == After(s2, []) == s2;
    } else {
      steps := [Send];
      var s1 := Apply(s, Send);
      assert steps[1..] == [] && Feasible(s1, []) && Feasible(s, steps);
      assert After(s, steps) == After(s1, []) == s1;
    }
  }

  /** Ten commands queued while the loop is busy, the loop returns, and a start request comes. */
  function Jam(k: string, c: Client): seq<Step> {
    [Register(k, c)] + seq(CAPACITY, i => Queue(c)) + [Return(c), Lock(k)]
  }

  lemma {:induction false} Queues(s: Net, c: Client, n: nat, rest: seq<Step>)
    requires c in s.queued && s.queued[c] + n <= CAPACITY
    requires Feasible(s.(queued := s.queued[c := s.queued[c] + n]), rest)
    ensures var steps := seq(n, i => Queue(c)) + rest;
            && Feasible(s, steps)
            && After(s, steps) == After(s.(queued := s.queued[c := s.queued[c] + n]), rest)
    decreases n
  {
    var steps := seq(n, i => Queue(c)) + rest;
    if n == 0 {
      assert steps == rest;
      assert s.queued[c := s.queued[c] + 0] == s.queued;
    } else {
      var s1 := Apply(s, Queue(c));
      assert s1.queued[c := s1.queued[c] + (n - 1)] == s.queued[c := s.queued[c] + n];
      Queues(s1, c, n - 1, rest);
      assert steps[0] == Queue(c) && steps[1..] == seq(n - 1, i => Queue(c)) + rest;
    }
  }

  /** So the lock can be lost for good: some run from a fresh server ends stuck. */
  lemma JamIsReachable(k: string, c: Client)
    ensures Feasible(Fresh(), Jam(k, c)) && Stuck(After(Fresh(), Jam(k, c)))
  {
    var s1 := Apply(Fresh(), Register(k, c));
    var full := s1.(queued := s1.queued[c := CAPACITY]);
    var rest := [Return(c), Lock(k)];
    var s2 := Apply(full, Return(c));
    var s3 := Apply(s2, Lock(k));
    assert rest[1..] == [Lock(k)] && [Lock(k)][1..] == [];
    assert Feasible(s3, []) && Feasible(s2, [Lock(k)]) && Feasible(full, rest);
    assert After(full, rest) == After(s2, [Lock(k)]) == After(s3, []) == s3;
    Queues(s1, c, CAPACITY, rest);
    assert Jam(k, c)[1..] == seq(CAPACITY, i => Queue(c)) + rest;
  }
}
