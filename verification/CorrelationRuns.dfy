/** What holds of the correlation of requests and responses over whole runs, in every
    interleaving. */
module CorrelationRuns {
  import opened Options
  import opened Keys
  import opened Correlation

  ghost predicate Run(actions: seq<Action>) {
    After(actions).Some?
  }

  function Final(actions: seq<Action>): State
    requires After(actions).Some?
  {
    After(actions).value
  }

  lemma {:induction false} Always(actions: seq<Action>)
    requires Run(actions)
    ensures Inv(Final(actions))
  {
    if actions != [] {
      var earlier, a := actions[..|actions| - 1], actions[|actions| - 1];
      Always(earlier);
      InvStep(Final(earlier), a);
    }
  }

  lemma {:induction false} RunPrefix(actions: seq<Action>, i: nat)
    requires Run(actions) && i <= |actions|
    ensures Run(actions[..i])
    decreases |actions|
  {
    if i < |actions| {
      var earlier := actions[..|actions| - 1];
      RunPrefix(earlier, i);
      assert earlier[..i] == actions[..i];
    } else {
      assert actions[..i] == actions;
    }
  }

  /** A run is continued one action at a time. */
  lemma SplitLast(actions: seq<Action>)
    requires Run(actions) && actions != []
    ensures var earlier, a := actions[..|actions| - 1], actions[|actions| - 1];
            Run(earlier) && Enabled(Final(earlier), a) && Final(actions) == Apply(Final(earlier), a)
  {
  }

  lemma LastOfMore(actions: seq<Action>, more: seq<Action>)
    requires Run(actions + more) && more != []
    ensures var earlier := actions + more[..|more| - 1]; var a := more[|more| - 1];
            Run(earlier) && Enabled(Final(earlier), a) && Final(actions + more) == Apply(Final(earlier), a)
  {
    var whole := actions + more;
    assert whole[..|whole| - 1] == actions + more[..|more| - 1];
    SplitLast(whole);
  }

  // ----- registrations

  /** No registration outlives its owner, even when calls overwrite each other's keys:
      a key leads to a call only between its registering and unregistering that key. */
  lemma NoRegistrationOutlivesItsOwner(actions: seq<Action>, key: string)
    requires Run(actions) && key in Final(actions).queues
    ensures var s := Final(actions);
            match s.queues[key]
            case CallChannel(c) => c < |s.calls| && Holds(s.calls[c], key) && s.calls[c].phase != Finished
            case CloudChannel(k) => key == CLOUD && s.cloud == Some(k)
  {
    Always(actions);
  }

  /** The cloud entry is there exactly while the cloud session has a channel. */
  lemma CloudEntryTracksSession(actions: seq<Action>)
    requires Run(actions)
    ensures CLOUD in Final(actions).queues <==> Final(actions).cloud.Some?
  {
    Always(actions);
    var s := Final(actions);
    if CLOUD in s.queues && s.queues[CLOUD].CallChannel? {
      CallKeysApart(s.calls[s.queues[CLOUD].call]);
    }
  }

  /** The key that a step registers, and for which channel. */
  predicate Registers(s: State, a: Action, key: string, channel: Channel)
    requires Enabled(s, a)
  {
    || (a.RegisterId? && channel == CallChannel(a.call)
        && s.calls[a.call].request.id != 0 && key == IdKey(s.calls[a.call].request.id))
    || (a.RegisterName? && channel == CallChannel(a.call)
        && s.calls[a.call].request.name != "" && key == s.calls[a.call].request.name)
    || (a.CloudListen? && channel == CloudChannel(s.cloudSessions) && key == CLOUD)
  }

  /** The key that a step unregisters, whoever holds it. */
  predicate Unregisters(s: State, a: Action, key: string)
    requires Enabled(s, a)
  {
    || (a.UnregisterId? && s.calls[a.call].request.id != 0 && key == IdKey(s.calls[a.call].request.id))
    || (a.UnregisterName? && s.calls[a.call].request.name != "" && key == s.calls[a.call].request.name)
    || (a.CloudForget? && key == CLOUD)
  }

  lemma RegisteredLeads(s: State, a: Action, key: string, channel: Channel)
    requires CallsValid(s) && Enabled(s, a) && (a.RegisterId? || a.RegisterName?)
    ensures key in Apply(s, a).queues && Apply(s, a).queues[key] == channel
       <==> || Registers(s, a, key, channel)
            || (key in s.queues && s.queues[key] == channel && !Unregisters(s, a, key)
                && !(exists other :: Registers(s, a, key, other)))
  {
    var own := CallChannel(a.call);
    if Registers(s, a, key, own) {
      assert Apply(s, a).queues[key] == own;
    } else {
      assert forall other :: !Registers(s, a, key, other);
    }
  }

  lemma KeyLeadsAfter(s: State, a: Action, key: string, channel: Channel)
    requires CallsValid(s) && Enabled(s, a)
    ensures key in Apply(s, a).queues && Apply(s, a).queues[key] == channel
       <==> || Registers(s, a, key, channel)
            || (key in s.queues && s.queues[key] == channel && !Unregisters(s, a, key)
                && !(exists other :: Registers(s, a, key, other)))
  {
    if a.RegisterId? || a.RegisterName? {
      RegisteredLeads(s, a, key, channel);
    } else if a.CloudListen? {
      assert key == CLOUD ==> Registers(s, a, key, CloudChannel(s.cloudSessions));
    } else {
      assert forall other :: !Registers(s, a, key, other);
    }
  }

  /** In every reachable state, where a key leads after a step: to the channel it is being
      registered for, nowhere when it is unregistered, and else to where it led before. */
  lemma KeyLeadsExactly(actions: seq<Action>, a: Action, key: string, channel: Channel)
    requires Run(actions) && Enabled(Final(actions), a)
    ensures var s := Final(actions);
            var after := Apply(s, a);
            (key in after.queues && after.queues[key] == channel
             <==> || Registers(s, a, key, channel)
                  || (key in s.queues && s.queues[key] == channel && !Unregisters(s, a, key)
                      && !(exists other :: Registers(s, a, key, other))))
    ensures a.CloudForget? ==> Apply(Final(actions), a).cloud.None?
    ensures a.CloudListen? ==> Apply(Final(actions), a).cloud == Some(Final(actions).cloudSessions)
  {
    Always(actions);
    KeyLeadsAfter(Final(actions), a, key, channel);
  }

  /** No two calls hold the same key. */
  ghost predicate Exclusive(s: State) {
    forall c, d, key | 0 <= c < |s.calls| && 0 <= d < |s.calls| ::
      Holds(s.calls[c], key) && Holds(s.calls[d], key) ==> c == d
  }

  /** Every call finds its own channel under the keys that it holds. */
  ghost predicate Mapped(s: State) {
    forall c, key | 0 <= c < |s.calls| ::
      Holds(s.calls[c], key) ==> key in s.queues && s.queues[key] == CallChannel(c)
  }

  lemma MappedMoved(s: State, c: nat, phase: Phase)
    requires Mapped(s) && c < |s.calls|
    requires forall key :: Holds(s.calls[c].(phase := phase), key) ==> Holds(s.calls[c], key)
    ensures Mapped(Moved(s, c, phase))
  {
  }

  /** What the call finds under one of its keys. */
  ghost predicate Finds(s: State, c: nat, key: string) {
    key in s.queues && s.queues[key] == CallChannel(c)
  }

  lemma OnlyHolder(s: State, c: nat, d: nat, key: string)
    requires Exclusive(s) && c < |s.calls| && d < |s.calls|
    requires Holds(s.calls[c], key) && Holds(s.calls[d], key)
    ensures c == d
  {
  }

  lemma HolderFinds(s: State, c: nat, key: string)
    requires Mapped(s) && c < |s.calls| && Holds(s.calls[c], key)
    ensures Finds(s, c, key)
  {
  }

  lemma FindsAll(s: State)
    requires forall c, key | 0 <= c < |s.calls| :: Holds(s.calls[c], key) ==> Finds(s, c, key)
    ensures Mapped(s)
  {
  }

  lemma MappedRegistered(s: State, c: nat, phase: Phase, key: string)
    requires Mapped(s) && c < |s.calls| && Exclusive(Registered(s, c, phase, key))
    requires forall k :: Holds(s.calls[c].(phase := phase), k) <==> Holds(s.calls[c], k) || k == key
    ensures Mapped(Registered(s, c, phase, key))
  {
    var t := Registered(s, c, phase, key);
    forall d, k | 0 <= d < |t.calls| && Holds(t.calls[d], k) ensures Finds(t, d, k) {
      if k == key {
        OnlyHolder(t, c, d, key);
      } else {
        HolderFinds(s, d, k);
      }
    }
    FindsAll(t);
  }

  lemma MappedUnregistered(s: State, c: nat, phase: Phase, key: string)
    requires Mapped(s) && c < |s.calls| && Holds(s.calls[c], key)
    requires forall k :: Holds(s.calls[c].(phase := phase), k) <==> Holds(s.calls[c], k) && k != key
    ensures Mapped(Unregistered(s, c, phase, key))
  {
    var t := Unregistered(s, c, phase, key);
    HolderFinds(s, c, key);
    forall d, k | 0 <= d < |t.calls| && Holds(t.calls[d], k) ensures Finds(t, d, k) {
      HolderFinds(s, d, k);
    }
    FindsAll(t);
  }

  lemma MappedIsExclusive(s: State)
    requires Mapped(s)
    ensures Exclusive(s)
  {
    forall c, d, key | 0 <= c < |s.calls| && 0 <= d < |s.calls| && Holds(s.calls[c], key) && Holds(s.calls[d], key)
      ensures c == d
    {
      HolderFinds(s, c, key);
      HolderFinds(s, d, key);
    }
  }

  lemma MappedRegisterId(s: State, c: nat)
    requires CallsValid(s) && Mapped(s) && At(s, c, RegisteringId) && Exclusive(Apply(s, RegisterId(c)))
    ensures Mapped(Apply(s, RegisterId(c)))
  {
    var r := s.calls[c].request;
    if r.id != 0 { MappedRegistered(s, c, RegisteringName, s.calls[c].idKey); }
    else { MappedMoved(s, c, RegisteringName); }
  }

  lemma MappedRegisterName(s: State, c: nat)
    requires CallsValid(s) && Mapped(s) && At(s, c, RegisteringName) && Exclusive(Apply(s, RegisterName(c)))
    ensures Mapped(Apply(s, RegisterName(c)))
  {
    var r := s.calls[c].request;
    if r.name != "" { MappedRegistered(s, c, Sending, r.name); }
    else { MappedMoved(s, c, if r.id != 0 then Sending else Finished); }
  }

  lemma MappedUnregisterName(s: State, c: nat)
    requires CallsValid(s) && Mapped(s) && At(s, c, UnregisteringName)
    ensures Mapped(Apply(s, UnregisterName(c)))
  {
    var r := s.calls[c].request;
    CallKeysApart(s.calls[c]);
    if r.name != "" { MappedUnregistered(s, c, UnregisteringId, r.name); } else { MappedMoved(s, c, UnregisteringId); }
  }

  lemma MappedUnregisterId(s: State, c: nat)
    requires CallsValid(s) && Mapped(s) && At(s, c, UnregisteringId)
    ensures Mapped(Apply(s, UnregisterId(c)))
  {
    var r := s.calls[c].request;
    CallKeysApart(s.calls[c]);
    if r.id != 0 { MappedUnregistered(s, c, Finished, s.calls[c].idKey); } else { MappedMoved(s, c, Finished); }
  }

  lemma CloudKeyNotHeld(s: State)
    requires CallsValid(s)
    ensures forall c :: 0 <= c < |s.calls| ==> !Holds(s.calls[c], CLOUD)
  {
    forall c | 0 <= c < |s.calls| ensures !Holds(s.calls[c], CLOUD) {
      CallKeysApart(s.calls[c]);
    }
  }

  lemma MappedCloud(s: State, a: Action)
    requires CallsValid(s) && Mapped(s) && Enabled(s, a) && (a.CloudForget? || a.CloudListen?)
    ensures Mapped(Apply(s, a))
  {
    var t := Apply(s, a);
    CloudKeyNotHeld(s);
    forall c, key | 0 <= c < |t.calls| && Holds(t.calls[c], key) ensures Finds(t, c, key) {
      HolderFinds(s, c, key);
    }
    FindsAll(t);
  }

  lemma MappedResult(s: State, c: nat, t: State)
    requires c < |s.calls| && Mapped(Moved(s, c, UnregisteringName)) && t.queues == s.queues
    requires exists n :: t.calls == s.calls[c := s.calls[c].(phase := UnregisteringName, result := Some(n))]
    ensures Mapped(t)
  {
    var u := Moved(s, c, UnregisteringName);
    forall d, key | 0 <= d < |t.calls| && Holds(t.calls[d], key) ensures Finds(t, d, key) {
      assert Holds(u.calls[d], key);
      HolderFinds(u, d, key);
    }
    FindsAll(t);
  }

  lemma MappedKept(s: State, t: State)
    requires Mapped(s) && t.calls == s.calls && t.queues == s.queues
    ensures Mapped(t)
  {
  }

  lemma MappedStart(s: State, r: Request)
    requires Mapped(s) && ValidRequest(r)
    ensures Mapped(Apply(s, Start(r)))
  {
    var t := Apply(s, Start(r));
    forall c, key | 0 <= c < |t.calls| && Holds(t.calls[c], key) ensures Finds(t, c, key) {
      HolderFinds(s, c, key);
    }
    FindsAll(t);
  }

  lemma MappedStep(s: State, a: Action)
    requires CallsValid(s) && Mapped(s) && Enabled(s, a) && Exclusive(Apply(s, a))
    ensures Mapped(Apply(s, a))
  {
    match a
    case RegisterId(c) => MappedRegisterId(s, c);
    case RegisterName(c) => MappedRegisterName(s, c);
    case Send(c) => MappedMoved(s, c, Waiting);
    case Deliver(n) =>
      MappedMoved(s, s.pending[n].to.call, UnregisteringName);
      MappedResult(s, s.pending[n].to.call, Apply(s, a));
    case UnregisterName(c) => MappedUnregisterName(s, c);
    case UnregisterId(c) => MappedUnregisterId(s, c);
    case CloudForget => MappedCloud(s, a);
    case CloudListen => MappedCloud(s, a);
    case Start(r) => MappedStart(s, r);
    case Decode(m) => MappedKept(s, Apply(s, a));
    case CloudTake(n) => MappedKept(s, Apply(s, a));
  }

  ghost predicate AlwaysExclusive(actions: seq<Action>)
    requires Run(actions)
  {
    forall i :: 0 <= i <= |actions| ==> After(actions[..i]).Some? && Exclusive(After(actions[..i]).value)
  }

  ghost predicate AlwaysMapped(actions: seq<Action>)
    requires Run(actions)
  {
    forall i :: 0 <= i <= |actions| ==> After(actions[..i]).Some? && Mapped(After(actions[..i]).value)
  }

  lemma {:induction false} MappedWhileExclusive(actions: seq<Action>, i: nat)
    requires Run(actions) && i <= |actions| && AlwaysExclusive(actions)
    ensures After(actions[..i]).Some? && Mapped(After(actions[..i]).value)
    decreases i
  {
    if i > 0 {
      MappedWhileExclusive(actions, i - 1);
      RunPrefix(actions, i);
      assert actions[..i][..i - 1] == actions[..i - 1];
      Always(actions[..i - 1]);
      MappedStep(After(actions[..i - 1]).value, actions[i - 1]);
    }
  }

  /** Throughout a run every call finds its own channel under the keys it holds, if and
      only if throughout the run no two calls hold the same key. */
  lemma OwnChannelExactlyWhenExclusive(actions: seq<Action>)
    requires Run(actions)
    ensures AlwaysMapped(actions) <==> AlwaysExclusive(actions)
  {
    if AlwaysExclusive(actions) {
      forall i | 0 <= i <= |actions| ensures After(actions[..i]).Some? && Mapped(After(actions[..i]).value) {
        MappedWhileExclusive(actions, i);
      }
    }
    if AlwaysMapped(actions) {
      forall i | 0 <= i <= |actions| ensures After(actions[..i]).Some? && Exclusive(After(actions[..i]).value) {
        assert Mapped(After(actions[..i]).value);
        MappedIsExclusive(After(actions[..i]).value);
      }
    }
  }

  // ----- responses

  /** The message that a call returns carries the identifier of its request; or nobody
      was registered for the identifier of the message when it was dispatched, and its
      name is one of the call's keys. */
  lemma ResponseMatchesRequest(actions: seq<Action>, c: nat)
    requires Run(actions) && c < |Final(actions).calls| && Final(actions).calls[c].result.Some?
    ensures var s := Final(actions); var n := s.calls[c].result.value;
            && n in s.received && n < |s.decoded| && s.received[n].message == s.decoded[n]
            && RoutedTo(s.calls[c], s.received[n]) && ValidCall(s.calls[c])
  {
    Always(actions);
  }

  predicate Assigned(s: State, n: nat) {
    n in s.pending || n in s.received
  }

  function DeliveryOf(s: State, n: nat): Delivery
    requires Assigned(s, n)
  {
    if n in s.pending then s.pending[n] else s.received[n]
  }

  /** An action assigns a message to a delivery only by decoding it. */
  lemma AssignedByDecoding(s: State, a: Action, n: nat)
    requires Conserved(s) && Enabled(s, a) && Assigned(Apply(s, a), n)
    ensures (Assigned(s, n) && DeliveryOf(Apply(s, a), n) == DeliveryOf(s, n))
         || (a.Decode? && n == |s.decoded|
             && Route(s.queues, a.message).Some?
             && DeliveryOf(Apply(s, a), n)
                == Delivery(Route(s.queues, a.message).value, a.message, ById(s.queues, a.message), s.queues.Keys))
  {
  }

  /** The keys that a delivery records are those that were registered when the message
      was decoded, and its channel is where they led at that time. */
  lemma {:induction false} DispatchMoment(actions: seq<Action>, n: nat) returns (i: nat)
    requires Run(actions) && Assigned(Final(actions), n)
    ensures i < |actions| && Run(actions[..i]) && actions[i].Decode?
    ensures var d := DeliveryOf(Final(actions), n); var then' := Final(actions[..i]);
            && d.message == actions[i].message && |then'.decoded| == n
            && d.keys == then'.queues.Keys && d.byId == ById(then'.queues, d.message)
            && Route(then'.queues, d.message) == Some(d.to)
  {
    if actions != [] {
      var earlier, a := actions[..|actions| - 1], actions[|actions| - 1];
      Always(earlier);
      AssignedByDecoding(Final(earlier), a, n);
      if a.Decode? && n == |Final(earlier).decoded| {
        i := |actions| - 1;
      } else {
        i := DispatchMoment(earlier, n);
        assert actions[..i] == earlier[..i];
      }
    }
  }

  /** For a call without a response name the second case is narrow: the method name of
      the message would have to be, literally, the identifier key of the request. */
  lemma ProxyResponseMatchesId(actions: seq<Action>, c: nat)
    requires Run(actions) && c < |Final(actions).calls| && Final(actions).calls[c].result.Some?
    requires Final(actions).calls[c].request.name == ""
    ensures Final(actions).calls[c].result.value in Final(actions).received
    ensures var s := Final(actions); var d := s.received[s.calls[c].result.value];
            d.message.id == s.calls[c].request.id
            || ((d.message.id == 0 || IdKey(d.message.id) !in d.keys)
                && d.message.name == IdKey(s.calls[c].request.id))
  {
    ResponseMatchesRequest(actions, c);
    var n := Final(actions).calls[c].result.value;
    Always(actions);
    var i := DispatchMoment(actions, n);
  }

  lemma OwnerIsFound(s: State, c: nat, key: string)
    requires Mapped(s) && c < |s.calls| && Holds(s.calls[c], key)
    ensures key in s.queues && s.queues[key] == CallChannel(c)
  {
    HolderFinds(s, c, key);
  }

  /** While every call finds its own channel, a message with the identifier of a call
      that holds its identifier key goes to that call. */
  lemma IdentifierReachesOwner(s: State, c: nat, m: Message)
    requires CallsValid(s) && Mapped(s) && c < |s.calls| && m.id != 0 && m.id == s.calls[c].request.id
    requires Holds(s.calls[c], IdKey(m.id))
    ensures |s.decoded| in Dispatched(s, m).pending
    ensures Dispatched(s, m).pending[|s.decoded|] == Delivery(CallChannel(c), m, true, s.queues.Keys)
  {
    OwnerIsFound(s, c, IdKey(m.id));
    assert ById(s.queues, m) && Route(s.queues, m) == Some(CallChannel(c));
  }

  /** The identifier of the message is a registered key. */
  predicate IdRegistered(s: State, m: Message) {
    m.id != 0 && IdKey(m.id) in s.queues
  }

  /** Where message number `n` is after it has been decoded. */
  predicate DispatchedTo(s: State, after: State, m: Message, n: nat) {
    && (n in after.dropped <==> !IdRegistered(s, m) && m.name !in s.queues)
    && (n in after.pending <==> n !in after.dropped)
    && (n in after.pending ==>
          && after.pending[n].message == m
          && (IdRegistered(s, m) ==> after.pending[n].to == s.queues[IdKey(m.id)])
          && (!IdRegistered(s, m) && m.name in s.queues ==> after.pending[n].to == s.queues[m.name]))
  }

  /** All messages but number `n` are where they were. */
  ghost predicate OthersStay(s: State, after: State, n: nat) {
    && after.queues == s.queues && after.calls == s.calls && after.received == s.received
    && (forall k :: k != n ==> (k in after.dropped <==> k in s.dropped))
    && (forall k :: k != n ==> (k in after.pending <==> k in s.pending))
    && (forall k :: k in s.pending && k != n ==> after.pending[k] == s.pending[k])
  }

  lemma Dispatching(s: State, m: Message)
    requires Conserved(s) && m.name != HELLO
    ensures DispatchedTo(s, Apply(s, Decode(m)), m, |s.decoded|)
  {
    assert |s.decoded| !in s.pending && |s.decoded| !in s.dropped;
  }

  lemma DispatchingOthers(s: State, m: Message)
    requires Conserved(s) && m.name != HELLO
    ensures OthersStay(s, Apply(s, Decode(m)), |s.decoded|) && |s.decoded| !in s.pending && |s.decoded| !in s.dropped
    ensures Apply(s, Decode(m)).decoded == s.decoded + [m]
  {
  }

  /** In every reachable state, where a decoded message goes: it is dropped if and only if
      neither its identifier nor its name is a registered key, and otherwise it is on its way
      into the channel of its identifier, or of its name when the identifier has none. */
  lemma DispatchedExactly(actions: seq<Action>, m: Message)
    requires Run(actions) && m.name != HELLO
    ensures var s := Final(actions);
            var after, n := Apply(s, Decode(m)), |s.decoded|;
            && after.decoded == s.decoded + [m] && n !in s.pending && n !in s.dropped
            && DispatchedTo(s, after, m, n) && OthersStay(s, after, n)
  {
    Always(actions);
    Dispatching(Final(actions), m);
    DispatchingOthers(Final(actions), m);
  }

  /** A hello is passed over. */
  lemma HelloPassedOver(s: State, m: Message)
    requires m.name == HELLO
    ensures Apply(s, Decode(m)) == s
  {
  }

  /** A message reaches the cloud session's channel if and only if its name is the cloud's,
      the session has a channel, and its identifier is not a registered key. */
  lemma CloudReachedExactly(actions: seq<Action>, m: Message, session: nat)
    requires Run(actions) && m.name != HELLO
    ensures var s := Final(actions);
            var after, n := Apply(s, Decode(m)), |s.decoded|;
            (n in after.pending && after.pending[n].to == CloudChannel(session)
             <==> m.name == CLOUD && s.cloud == Some(session) && !IdRegistered(s, m))
  {
    Always(actions);
    DispatchedExactly(actions, m);
    IdKeyApart(m.id, Request(0, ""));
  }

  // ----- conservation

  function Numbers(n: nat): (r: set<nat>)
    ensures forall i: nat :: i in r <==> i < n
    ensures |r| == n
  {
    if n == 0 then {} else Numbers(n - 1) + {n - 1}
  }

  lemma UnionSize(all: set<nat>, a: set<nat>, b: set<nat>, c: set<nat>)
    requires all == a + b + c && a !! b && a !! c && b !! c
    ensures |all| == |a| + |b| + |c|
  {
    assert a + b !! c;
    assert |a + b| == |a| + |b|;
  }

  lemma ConservedTogether(s: State)
    requires Conserved(s)
    ensures Numbers(|s.decoded|) == s.dropped + s.pending.Keys + s.received.Keys
  {
  }

  lemma ConservedApart(s: State)
    requires Conserved(s)
    ensures s.dropped !! s.pending.Keys && s.dropped !! s.received.Keys && s.pending.Keys !! s.received.Keys
  {
  }

  lemma ConservedCounts(s: State)
    requires Conserved(s)
    ensures |s.decoded| == |s.dropped| + |s.pending| + |s.received|
  {
    ConservedTogether(s);
    ConservedApart(s);
    UnionSize(Numbers(|s.decoded|), s.dropped, s.pending.Keys, s.received.Keys);
    assert |s.pending| == |s.pending.Keys| && |s.received| == |s.received.Keys|;
  }

  /** Messages are conserved: those decoded are those dropped, those pending and those
      received, each in one place only, and none of them altered. */
  lemma MessagesConserved(actions: seq<Action>)
    requires Run(actions)
    ensures Conserved(Final(actions))
    ensures var s := Final(actions); |s.decoded| == |s.dropped| + |s.pending| + |s.received|
  {
    Always(actions);
    ConservedCounts(Final(actions));
  }

  /** A call receives one message at most. */
  lemma OneMessagePerCall(actions: seq<Action>, n: nat, n': nat)
    requires Run(actions) && n in Final(actions).received && n' in Final(actions).received
    requires Final(actions).received[n].to == Final(actions).received[n'].to
    requires Final(actions).received[n].to.CallChannel?
    ensures n == n'
  {
    Always(actions);
  }

  // ----- what overlapping keys and duplicate responses lead to

  predicate Awaits(s: State, c: nat) {
    c < |s.calls| && (s.calls[c].phase == Sending || s.calls[c].phase == Waiting)
  }

  /** No key leads to the call. */
  ghost predicate Unreachable(queues: map<string, Channel>, c: nat) {
    forall key :: key in queues ==> queues[key] != CallChannel(c)
  }

  /** The key leads to the call, and no other one does. */
  ghost predicate OnlyKey(queues: map<string, Channel>, c: nat, key: string) {
    && key in queues && queues[key] == CallChannel(c)
    && forall k :: k in queues && queues[k] == CallChannel(c) ==> k == key
  }

  ghost predicate NothingFor(pending: map<nat, Delivery>, c: nat) {
    forall n :: n in pending ==> pending[n].to != CallChannel(c)
  }

  /** The call is past registering, no key leads to it and nothing is on its way to it. */
  ghost predicate Lost(s: State, c: nat) {
    Awaits(s, c) && s.calls[c].result.None? && Unreachable(s.queues, c) && NothingFor(s.pending, c)
  }

  lemma LostStep(s: State, c: nat, a: Action)
    requires Lost(s, c) && Enabled(s, a)
    ensures Lost(Apply(s, a), c)
  {
  }

  /** The key that an action registers or unregisters. */
  function KeyTouched(s: State, a: Action): Option<string>
    requires Enabled(s, a)
  {
    if a.RegisterId? || a.UnregisterId? then
      if s.calls[a.call].request.id != 0 then Some(s.calls[a.call].idKey) else None
    else if a.RegisterName? || a.UnregisterName? then
      if s.calls[a.call].request.name != "" then Some(s.calls[a.call].request.name) else None
    else None
  }

  /** What makes an action lose a call, told before it: nothing is pending for the call,
      and either another call registers or unregisters the only key that leads to it, or it
      is about to wait under an identifier key that another call has taken already. */
  ghost predicate Loses(s: State, a: Action, c: nat)
    requires Enabled(s, a)
  {
    && NothingFor(s.pending, c)
    && if a == RegisterName(c) then
         s.calls[c].request.name == "" && s.calls[c].request.id != 0 && Unreachable(s.queues, c)
       else Awaits(s, c) && KeyTouched(s, a).Some? && OnlyKey(s.queues, c, KeyTouched(s, a).value)
  }

  lemma RegisteringCutsOff(queues: map<string, Channel>, c: nat, key: string, other: Channel)
    requires !Unreachable(queues, c) && other != CallChannel(c)
    ensures Unreachable(queues[key := other], c) <==> OnlyKey(queues, c, key)
  {
    var after := queues[key := other];
    var k :| k in queues && queues[k] == CallChannel(c);
    assert k != key ==> after[k] == CallChannel(c);
    if OnlyKey(queues, c, key) {
      forall j | j in after ensures after[j] != CallChannel(c) {
        assert j != key ==> after[j] == queues[j];
      }
    } else if k == key {
      var j :| j in queues && queues[j] == CallChannel(c) && j != key;
      assert after[j] == CallChannel(c);
    }
  }

  lemma UnregisteringCutsOff(queues: map<string, Channel>, c: nat, key: string)
    requires !Unreachable(queues, c)
    ensures Unreachable(queues - {key}, c) <==> OnlyKey(queues, c, key)
  {
    var k :| k in queues && queues[k] == CallChannel(c);
    assert k != key ==> (queues - {key})[k] == CallChannel(c);
    if !OnlyKey(queues, c, key) && k == key {
      var j :| j in queues && queues[j] == CallChannel(c) && j != key;
      assert (queues - {key})[j] == CallChannel(c);
    }
  }

  lemma AwaitingHasNoResult(s: State, c: nat)
    requires ResultsReceived(s) && Awaits(s, c)
    ensures s.calls[c].result.None?
  {
  }

  lemma LosesByRegistering(s: State, c: nat, d: nat, phase: Phase, key: string)
    requires Awaits(s, c) && s.calls[c].result.None? && d < |s.calls| && d != c && !Lost(s, c)
    ensures Lost(Registered(s, d, phase, key), c) <==> NothingFor(s.pending, c) && OnlyKey(s.queues, c, key)
  {
    if NothingFor(s.pending, c) {
      RegisteringCutsOff(s.queues, c, key, CallChannel(d));
    }
  }

  lemma LosesByUnregistering(s: State, c: nat, d: nat, phase: Phase, key: string)
    requires Awaits(s, c) && s.calls[c].result.None? && d < |s.calls| && d != c && !Lost(s, c)
    ensures Lost(Unregistered(s, d, phase, key), c) <==> NothingFor(s.pending, c) && OnlyKey(s.queues, c, key)
  {
    if NothingFor(s.pending, c) {
      UnregisteringCutsOff(s.queues, c, key);
    }
  }

  /** A move of a call other than the start of its wait loses nobody. */
  lemma NotLostByMoving(s: State, c: nat, d: nat, phase: Phase)
    requires !Lost(s, c) && d < |s.calls|
    requires c == d ==> Awaits(s, c) || (phase != Sending && phase != Waiting)
    ensures !Lost(Moved(s, d, phase), c)
  {
  }

  lemma LosesByOwnName(s: State, c: nat)
    requires ResultsReceived(s) && At(s, c, RegisteringName)
    ensures Lost(Apply(s, RegisterName(c)), c) <==> Loses(s, RegisterName(c), c)
  {
    var r, t := s.calls[c].request, Apply(s, RegisterName(c));
    if r.name != "" {
      assert r.name in t.queues && t.queues[r.name] == CallChannel(c);
    } else {
      assert t.queues == s.queues && t.pending == s.pending && t.calls[c].result == s.calls[c].result;
    }
  }

  lemma LosesByRegisterName(s: State, c: nat, d: nat)
    requires ResultsReceived(s) && At(s, d, RegisteringName) && !Lost(s, c)
    ensures Lost(Apply(s, RegisterName(d)), c) <==> Loses(s, RegisterName(d), c)
  {
    if c == d {
      LosesByOwnName(s, c);
    } else if s.calls[d].request.name == "" {
      NotLostByMoving(s, c, d, if s.calls[d].request.id != 0 then Sending else Finished);
    } else if Awaits(s, c) {
      AwaitingHasNoResult(s, c);
      LosesByRegistering(s, c, d, Sending, s.calls[d].request.name);
    }
  }

  lemma LosesByRegisterId(s: State, c: nat, d: nat)
    requires ResultsReceived(s) && At(s, d, RegisteringId) && !Lost(s, c)
    ensures Lost(Apply(s, RegisterId(d)), c) <==> Loses(s, RegisterId(d), c)
  {
    if s.calls[d].request.id == 0 {
      NotLostByMoving(s, c, d, RegisteringName);
    } else if Awaits(s, c) {
      AwaitingHasNoResult(s, c);
      LosesByRegistering(s, c, d, RegisteringName, s.calls[d].idKey);
    }
  }

  lemma LosesByUnregisterName(s: State, c: nat, d: nat)
    requires ResultsReceived(s) && At(s, d, UnregisteringName) && !Lost(s, c)
    ensures Lost(Apply(s, UnregisterName(d)), c) <==> Loses(s, UnregisterName(d), c)
  {
    if s.calls[d].request.name == "" {
      NotLostByMoving(s, c, d, UnregisteringId);
    } else if Awaits(s, c) {
      AwaitingHasNoResult(s, c);
      LosesByUnregistering(s, c, d, UnregisteringId, s.calls[d].request.name);
    }
  }

  lemma LosesByUnregisterId(s: State, c: nat, d: nat)
    requires ResultsReceived(s) && At(s, d, UnregisteringId) && !Lost(s, c)
    ensures Lost(Apply(s, UnregisterId(d)), c) <==> Loses(s, UnregisterId(d), c)
  {
    if s.calls[d].request.id == 0 {
      NotLostByMoving(s, c, d, Finished);
    } else if Awaits(s, c) {
      AwaitingHasNoResult(s, c);
      LosesByUnregistering(s, c, d, Finished, s.calls[d].idKey);
    }
  }

  lemma NotLostByCloud(s: State, a: Action, c: nat)
    requires CallsValid(s) && QueuesOwned(s) && (a.CloudForget? || (a.CloudListen? && s.cloud.None?)) && !Lost(s, c)
    ensures !Lost(Apply(s, a), c)
  {
    CloudKeyNotHeld(s);
    var t := Apply(s, a);
    if !Unreachable(s.queues, c) {
      var k :| k in s.queues && s.queues[k] == CallChannel(c);
      assert k in t.queues && t.queues[k] == CallChannel(c);
    }
  }

  lemma NotLostByTaking(s: State, n: nat, c: nat)
    requires Enabled(s, CloudTake(n)) && !Lost(s, c)
    ensures !Lost(Apply(s, CloudTake(n)), c)
  {
    if !NothingFor(s.pending, c) {
      var m :| m in s.pending && s.pending[m].to == CallChannel(c);
      assert m in (s.pending - {n}) && (s.pending - {n})[m].to == CallChannel(c);
    }
  }

  lemma NotLostByDecoding(s: State, m: Message, c: nat)
    requires Conserved(s) && !Lost(s, c)
    ensures !Lost(Dispatched(s, m), c)
  {
    var t := Dispatched(s, m);
    if !NothingFor(s.pending, c) {
      var n :| n in s.pending && s.pending[n].to == CallChannel(c);
      assert n != |s.decoded|;
      assert n in t.pending && t.pending[n] == s.pending[n];
    }
  }

  lemma NotLostByDelivery(s: State, n: nat, c: nat)
    requires Enabled(s, Deliver(n)) && !Lost(s, c)
    ensures !Lost(Apply(s, Deliver(n)), c)
  {
    if !NothingFor(s.pending, c) && s.pending[n].to.call != c {
      var m :| m in s.pending && s.pending[m].to == CallChannel(c);
      assert m in (s.pending - {n}) && (s.pending - {n})[m].to == CallChannel(c);
    }
  }

  /** In every reachable state, an action loses a call exactly under that condition. */
  lemma LosesExactly(s: State, a: Action, c: nat)
    requires Inv(s) && Enabled(s, a) && !Lost(s, c)
    ensures Lost(Apply(s, a), c) <==> Loses(s, a, c)
  {
    match a
    case RegisterId(d) => LosesByRegisterId(s, c, d);
    case RegisterName(d) => LosesByRegisterName(s, c, d);
    case UnregisterName(d) => LosesByUnregisterName(s, c, d);
    case UnregisterId(d) => LosesByUnregisterId(s, c, d);
    case Start(r) =>
    case Send(d) => NotLostByMoving(s, c, d, Waiting);
    case Decode(m) => if m.name != HELLO { NotLostByDecoding(s, m, c); }
    case Deliver(n) => NotLostByDelivery(s, n, c);
    case CloudForget => NotLostByCloud(s, a, c);
    case CloudListen => NotLostByCloud(s, a, c);
    case CloudTake(n) => NotLostByTaking(s, n, c);
  }

  ghost predicate StepLoses(actions: seq<Action>, k: nat, c: nat)
    requires k < |actions|
  {
    Run(actions[..k]) && Enabled(Final(actions[..k]), actions[k]) && Loses(Final(actions[..k]), actions[k], c)
  }

  ghost predicate SomeStepLoses(actions: seq<Action>, c: nat) {
    exists k :: 0 <= k < |actions| && StepLoses(actions, k, c)
  }

  lemma LosingStepsOfPrefix(actions: seq<Action>, c: nat)
    requires actions != []
    ensures SomeStepLoses(actions, c)
       <==> SomeStepLoses(actions[..|actions| - 1], c) || StepLoses(actions, |actions| - 1, c)
  {
    var init := actions[..|actions| - 1];
    forall k | 0 <= k < |init| ensures StepLoses(actions, k, c) <==> StepLoses(init, k, c) {
      assert actions[..k] == init[..k];
    }
  }

  /** In every interleaving, a call is lost at the end of a run exactly when some step of
      the run was such a one. */
  lemma {:induction false} LostExactly(actions: seq<Action>, c: nat)
    requires Run(actions)
    ensures Lost(Final(actions), c) <==> SomeStepLoses(actions, c)
  {
    if actions != [] {
      var init, a := actions[..|actions| - 1], actions[|actions| - 1];
      LostExactly(init, c);
      Always(init);
      LosingStepsOfPrefix(actions, c);
      if Lost(Final(init), c) {
        LostStep(Final(init), c, a);
      } else {
        LosesExactly(Final(init), a, c);
      }
    }
  }

  /** A call that waits has a key to be found under. */
  predicate WaitsUnderAKey(s: State) {
    forall c :: 0 <= c < |s.calls| && Awaits(s, c) ==> s.calls[c].request.id != 0 || s.calls[c].request.name != ""
  }

  lemma WaitsUnderAKeyStep(s: State, a: Action)
    requires WaitsUnderAKey(s) && Enabled(s, a)
    ensures WaitsUnderAKey(Apply(s, a))
  {
    var t := Apply(s, a);
    forall c | 0 <= c < |t.calls| && Awaits(t, c) ensures t.calls[c].request.id != 0 || t.calls[c].request.name != "" {
      assert c < |s.calls| && t.calls[c].request == s.calls[c].request;
      assert Awaits(s, c) || s.calls[c].phase == RegisteringName;
    }
  }

  lemma {:induction false} AlwaysWaitsUnderAKey(actions: seq<Action>)
    requires Run(actions)
    ensures WaitsUnderAKey(Final(actions))
  {
    if actions != [] {
      AlwaysWaitsUnderAKey(actions[..|actions| - 1]);
      WaitsUnderAKeyStep(Final(actions[..|actions| - 1]), actions[|actions| - 1]);
    }
  }

  /** As long as no two calls hold the same key, no call is lost. */
  lemma ExclusiveNeverLost(actions: seq<Action>, c: nat)
    requires Run(actions) && AlwaysExclusive(actions)
    ensures !Lost(Final(actions), c)
  {
    var s := Final(actions);
    assert actions[..|actions|] == actions;
    MappedWhileExclusive(actions, |actions|);
    AlwaysWaitsUnderAKey(actions);
    if Awaits(s, c) {
      var call := s.calls[c];
      HolderFinds(s, c, if call.request.id != 0 then call.idKey else call.request.name);
    }
  }

  /** A lost call never returns: this has no end, as there is no timeout. */
  lemma {:induction false} LostForever(actions: seq<Action>, more: seq<Action>, c: nat)
    requires Run(actions) && Run(actions + more) && Lost(Final(actions), c)
    ensures Lost(Final(actions + more), c)
    decreases |more|
  {
    if more == [] {
      assert actions + more == actions;
    } else {
      LastOfMore(actions, more);
      LostForever(actions, more[..|more| - 1], c);
      LostStep(Final(actions + more[..|more| - 1]), c, more[|more| - 1]);
    }
  }

  /** The delivery is for a call that has its response already. */
  ghost predicate TooLate(s: State, n: nat, d: Delivery) {
    && n in s.pending && s.pending[n] == d && d.to.CallChannel?
    && d.to.call < |s.calls| && s.calls[d.to.call].result.Some?
  }

  lemma TooLateStep(s: State, n: nat, d: Delivery, a: Action)
    requires Conserved(s) && ResultsReceived(s) && TooLate(s, n, d) && Enabled(s, a)
    ensures TooLate(Apply(s, a), n, d)
  {
  }

  /** A second response for a call stays in its delivery for ever. */
  lemma {:induction false} SecondResponseStuck(actions: seq<Action>, more: seq<Action>, n: nat, d: Delivery)
    requires Run(actions) && Run(actions + more) && TooLate(Final(actions), n, d)
    ensures TooLate(Final(actions + more), n, d)
    decreases |more|
  {
    if more == [] {
      assert actions + more == actions;
    } else {
      LastOfMore(actions, more);
      SecondResponseStuck(actions, more[..|more| - 1], n, d);
      Always(actions + more[..|more| - 1]);
      TooLateStep(Final(actions + more[..|more| - 1]), n, d, more[|more| - 1]);
    }
  }

  lemma Extend(actions: seq<Action>, a: Action) returns (longer: seq<Action>)
    requires Run(actions) && Enabled(Final(actions), a)
    ensures longer == actions + [a] && Run(longer) && Final(longer) == Apply(Final(actions), a)
  {
    longer := actions + [a];
    assert longer[..|longer| - 1] == actions;
  }

  const INFO_REQUEST := Request(0, INTERNAL_INFO)

  lemma OneInternalInfoCall() returns (actions: seq<Action>)
    ensures Run(actions)
    ensures Final(actions) == INITIAL.(calls := [Call(INFO_REQUEST, IdKey(0), Waiting, None)],
                                       queues := map[INTERNAL_INFO := CallChannel(0)])
  {
    actions := Extend([], Start(INFO_REQUEST));
    actions := Extend(actions, RegisterId(0));
    actions := Extend(actions, RegisterName(0));
    actions := Extend(actions, Send(0));
  }

  /** Two calls for the internal info, as the cloud session and the status reporter make
      them, register under the same name before either is answered. */
  lemma TwoInternalInfoCalls() returns (actions: seq<Action>)
    ensures Run(actions)
    ensures var call := Call(INFO_REQUEST, IdKey(0), Waiting, None);
            Final(actions) == INITIAL.(calls := [call, call], queues := map[INTERNAL_INFO := CallChannel(1)])
  {
    actions := OneInternalInfoCall();
    actions := Extend(actions, Start(INFO_REQUEST));
    actions := Extend(actions, RegisterId(1));
    actions := Extend(actions, RegisterName(1));
    actions := Extend(actions, Send(1));
  }

  /** Without exclusive keys a call can lose its channel: the one response goes to the
      second call, which then removes the name that the first one is waiting under. */
  lemma OverlapLosesCall() returns (actions: seq<Action>)
    ensures Run(actions) && !AlwaysExclusive(actions) && Lost(Final(actions), 0)
  {
    var before := TwoInternalInfoCalls();
    actions := Extend(before, Decode(Message(INTERNAL_INFO, 0, 0)));
    actions := Extend(actions, Deliver(0));
    actions := Extend(actions, UnregisterName(1));
    var s := Final(actions);
    assert actions[..|before|] == before;
    assert Holds(Final(before).calls[0], INTERNAL_INFO) && Holds(Final(before).calls[1], INTERNAL_INFO);
    assert !Exclusive(Final(before));
  }
}
