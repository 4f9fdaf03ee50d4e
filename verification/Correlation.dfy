/** The correlation of requests and responses of pkg/rockrobo/rockrobo.go and
    local_connection.go: any number of concurrent `retrieve` calls, the dispatchers of
    any number of local connections and the cloud session share one map of channels.
    A run is a sequence of atomic actions in any order that the program allows. */
module Correlation {
  import opened Options
  import opened Keys

  datatype Message = Message(name: string, id: int, content: nat)

  /** What a call asks for. An empty name stands for a call without one. */
  datatype Request = Request(id: int, name: string)

  predicate ValidRequest(r: Request) {
    r.name == "" || r.name in RESPONSE_NAMES
  }

  /** Where a call is in `retrieve`. Its channel is its own from the start. */
  datatype Phase =
    | RegisteringId | RegisteringName | Sending | Waiting | UnregisteringName | UnregisteringId | Finished

  /** `idKey` is the key of the request's identifier, and `result` the number of the
      message that was received. */
  datatype Call = Call(request: Request, idKey: string, phase: Phase, result: Option<nat>)

  datatype Channel = CallChannel(call: nat) | CloudChannel(session: nat)

  /** A message on its way into a channel. `keys` records the keys that were registered
      when it was dispatched, and `byId` whether that of its identifier was one of them. */
  datatype Delivery = Delivery(to: Channel, message: Message, byId: bool, keys: set<string>)

  /** Messages other than hellos are numbered in the order in which they are decoded. */
  datatype State = State(
    queues: map<string, Channel>,
    calls: seq<Call>,
    cloud: Option<nat>,
    cloudSessions: nat,
    decoded: seq<Message>,
    pending: map<nat, Delivery>,
    received: map<nat, Delivery>,
    dropped: set<nat>)

  datatype Action =
    | Start(request: Request)
    | RegisterId(call: nat)
    | RegisterName(call: nat)
    | Send(call: nat)
    | Decode(message: Message)
    | Deliver(number: nat)
    | UnregisterName(call: nat)
    | UnregisterId(call: nat)
    | CloudForget
    | CloudListen
    | CloudTake(number: nat)

  const INITIAL := State(map[], [], None, 0, [], map[], map[], {})

  /** A key is registered for the identifier of the message. */
  predicate ById(queues: map<string, Channel>, m: Message) {
    m.id != 0 && IdKey(m.id) in queues
  }

  /** The channel for a message: under its identifier first, then under its name. */
  function Route(queues: map<string, Channel>, m: Message): Option<Channel> {
    if ById(queues, m) then Some(queues[IdKey(m.id)])
    else if m.name in queues then Some(queues[m.name])
    else None
  }

  predicate At(s: State, c: nat, phase: Phase) {
    c < |s.calls| && s.calls[c].phase == phase
  }

  predicate Enabled(s: State, a: Action) {
    match a
    case Start(r) => ValidRequest(r)
    case RegisterId(c) => At(s, c, RegisteringId)
    case RegisterName(c) => At(s, c, RegisteringName)
    case Send(c) => At(s, c, Sending)
    case Decode(m) => true
    case Deliver(n) => n in s.pending && s.pending[n].to.CallChannel? && At(s, s.pending[n].to.call, Waiting)
    case UnregisterName(c) => At(s, c, UnregisteringName)
    case UnregisterId(c) => At(s, c, UnregisteringId)
    case CloudForget => true
    case CloudListen => s.cloud.None?
    case CloudTake(n) => n in s.pending && s.cloud.Some? && s.pending[n].to == CloudChannel(s.cloud.value)
  }

  function Moved(s: State, c: nat, phase: Phase): State
    requires c < |s.calls|
  {
    s.(calls := s.calls[c := s.calls[c].(phase := phase)])
  }

  function Registered(s: State, c: nat, phase: Phase, key: string): State
    requires c < |s.calls|
  {
    Moved(s, c, phase).(queues := s.queues[key := CallChannel(c)])
  }

  function Unregistered(s: State, c: nat, phase: Phase, key: string): State
    requires c < |s.calls|
  {
    Moved(s, c, phase).(queues := s.queues - {key})
  }

  function Take(s: State, n: nat): State
    requires n in s.pending
  {
    s.(pending := s.pending - {n}, received := s.received[n := s.pending[n]])
  }

  /** A message is decoded, and handed to a delivery or dropped. */
  function Dispatched(s: State, m: Message): State {
    var n := |s.decoded|;
    var t := s.(decoded := s.decoded + [m]);
    match Route(s.queues, m)
    case None => t.(dropped := s.dropped + {n})
    case Some(channel) => t.(pending := s.pending[n := Delivery(channel, m, ById(s.queues, m), s.queues.Keys)])
  }

  function Apply(s: State, a: Action): State
    requires Enabled(s, a)
  {
    match a
    case Start(r) => s.(calls := s.calls + [Call(r, IdKey(r.id), RegisteringId, None)])
    case RegisterId(c) =>
      if s.calls[c].request.id != 0 then Registered(s, c, RegisteringName, s.calls[c].idKey)
      else Moved(s, c, RegisteringName)
    case RegisterName(c) =>
      var r := s.calls[c].request;
      if r.name != "" then Registered(s, c, Sending, r.name)
      else Moved(s, c, if r.id != 0 then Sending else Finished)
    case Send(c) => Moved(s, c, Waiting)
    case Decode(m) =>
      if m.name == HELLO then s else Dispatched(s, m)
    case Deliver(n) =>
      var c := s.pending[n].to.call;
      Take(s, n).(calls := s.calls[c := s.calls[c].(phase := UnregisteringName, result := Some(n))])
    case UnregisterName(c) =>
      var r := s.calls[c].request;
      if r.name != "" then Unregistered(s, c, UnregisteringId, r.name) else Moved(s, c, UnregisteringId)
    case UnregisterId(c) =>
      if s.calls[c].request.id != 0 then Unregistered(s, c, Finished, s.calls[c].idKey) else Moved(s, c, Finished)
    case CloudForget => s.(queues := s.queues - {CLOUD}, cloud := None)
    case CloudListen =>
      s.(queues := s.queues[CLOUD := CloudChannel(s.cloudSessions)],
         cloud := Some(s.cloudSessions), cloudSessions := s.cloudSessions + 1)
    case CloudTake(n) => Take(s, n)
  }

  /** The state that a sequence of actions leads to from the start, if each of them is
      enabled when its turn comes. */
  function After(actions: seq<Action>): Option<State> {
    if actions == [] then Some(INITIAL)
    else
      var before := After(actions[..|actions| - 1]);
      var a := actions[|actions| - 1];
      if before.Some? && Enabled(before.value, a) then Some(Apply(before.value, a)) else None
  }

  // ----- what every state of every run satisfies

  predicate HasKey(call: Call, key: string) {
    (call.request.id != 0 && key == call.idKey) || (call.request.name != "" && key == call.request.name)
  }

  /** The call is between registering and unregistering this key. */
  predicate Holds(call: Call, key: string) {
    || (call.request.id != 0 && key == call.idKey
        && call.phase != RegisteringId && call.phase != Finished)
    || (call.request.name != "" && key == call.request.name
        && (call.phase == Sending || call.phase == Waiting || call.phase == UnregisteringName))
  }

  ghost predicate QueuesOwned(s: State) {
    && (forall key :: key in s.queues && s.queues[key].CallChannel? ==>
          s.queues[key].call < |s.calls| && Holds(s.calls[s.queues[key].call], key))
    && (forall key :: key in s.queues && s.queues[key].CloudChannel? ==>
          key == CLOUD && s.cloud == Some(s.queues[key].session))
    && (s.cloud.Some? ==> CLOUD in s.queues && s.queues[CLOUD] == CloudChannel(s.cloud.value))
  }

  predicate ValidCall(call: Call) {
    ValidRequest(call.request) && call.idKey == IdKey(call.request.id)
  }

  ghost predicate CallsValid(s: State) {
    forall c :: 0 <= c < |s.calls| ==> ValidCall(s.calls[c])
  }

  /** Why a message was sent to a call: it carries the call's identifier, or nobody was
      registered for its identifier and its name is one of the call's keys. */
  predicate RoutedTo(call: Call, d: Delivery) {
    if d.byId then d.message.id == call.request.id else HasKey(call, d.message.name)
  }

  ghost predicate Explained(s: State, d: Delivery) {
    match d.to
    case CallChannel(c) => c < |s.calls| && RoutedTo(s.calls[c], d)
    case CloudChannel(k) => k < s.cloudSessions && d.message.name == CLOUD
  }

  ghost predicate DeliveriesExplained(s: State) {
    && (s.cloud.Some? ==> s.cloud.value < s.cloudSessions)
    && (forall n :: n in s.pending ==> Explained(s, s.pending[n]))
    && (forall n :: n in s.received ==> Explained(s, s.received[n]))
  }

  /** Every decoded message is in exactly one place, and unaltered. */
  ghost predicate Conserved(s: State) {
    && (forall n: nat :: n < |s.decoded| <==> n in s.pending || n in s.received || n in s.dropped)
    && (forall n :: n in s.pending ==> n !in s.received && n !in s.dropped)
    && (forall n :: n in s.received ==> n !in s.dropped)
    && (forall n :: n in s.pending ==> s.pending[n].message == s.decoded[n])
    && (forall n :: n in s.received ==> s.received[n].message == s.decoded[n])
  }

  predicate Answered(phase: Phase) {
    phase == UnregisteringName || phase == UnregisteringId || phase == Finished
  }

  /** A call that has received a message has received no other one. */
  ghost predicate ResultsReceived(s: State) {
    && (forall c :: 0 <= c < |s.calls| && s.calls[c].result.Some? ==>
          && s.calls[c].result.value in s.received
          && s.received[s.calls[c].result.value].to == CallChannel(c)
          && Answered(s.calls[c].phase))
    && (forall n :: n in s.received && s.received[n].to.CallChannel? ==>
          s.received[n].to.call < |s.calls| && s.calls[s.received[n].to.call].result == Some(n))
  }

  ghost predicate Inv(s: State) {
    CallsValid(s) && QueuesOwned(s) && DeliveriesExplained(s) && Conserved(s) && ResultsReceived(s)
  }

  lemma CallsValidStep(s: State, a: Action)
    requires CallsValid(s) && Enabled(s, a)
    ensures CallsValid(Apply(s, a))
  {
  }

  lemma IdKeyApart(id: int, r: Request)
    requires ValidRequest(r)
    ensures IdKey(id) != CLOUD && IdKey(id) != r.name && r.name != CLOUD
  {
    if r.name != "" {
      KeysApart(r.name, id);
    } else {
      KeysApart(INTERNAL_INFO, id);
    }
  }

  lemma CallKeysApart(call: Call)
    requires ValidCall(call)
    ensures call.request.name != CLOUD && call.idKey != CLOUD && call.request.name != call.idKey
  {
    IdKeyApart(call.request.id, call.request);
  }

  lemma QueuesMoved(s: State, c: nat, phase: Phase)
    requires QueuesOwned(s) && c < |s.calls|
    requires forall key :: Holds(s.calls[c], key) ==> Holds(s.calls[c].(phase := phase), key)
    ensures QueuesOwned(Moved(s, c, phase))
  {
  }

  lemma QueuesRegistered(s: State, c: nat, phase: Phase, key: string)
    requires QueuesOwned(s) && c < |s.calls| && key != CLOUD
    requires Holds(s.calls[c].(phase := phase), key)
    requires forall k :: Holds(s.calls[c], k) ==> Holds(s.calls[c].(phase := phase), k)
    ensures QueuesOwned(Registered(s, c, phase, key))
  {
  }

  lemma QueuesUnregistered(s: State, c: nat, phase: Phase, key: string)
    requires QueuesOwned(s) && c < |s.calls| && key != CLOUD
    requires forall k :: Holds(s.calls[c], k) && k != key ==> Holds(s.calls[c].(phase := phase), k)
    ensures QueuesOwned(Unregistered(s, c, phase, key))
  {
  }

  lemma QueuesRegistering(s: State, a: Action)
    requires CallsValid(s) && QueuesOwned(s) && Enabled(s, a) && (a.RegisterId? || a.RegisterName?)
    ensures QueuesOwned(Apply(s, a))
  {
    var c := a.call;
    var r, idKey := s.calls[c].request, s.calls[c].idKey;
    CallKeysApart(s.calls[c]);
    if a.RegisterId? {
      if r.id != 0 { QueuesRegistered(s, c, RegisteringName, idKey); } else { QueuesMoved(s, c, RegisteringName); }
    } else {
      if r.name != "" { QueuesRegistered(s, c, Sending, r.name); }
      else { QueuesMoved(s, c, if r.id != 0 then Sending else Finished); }
    }
  }

  lemma QueuesUnregistering(s: State, a: Action)
    requires CallsValid(s) && QueuesOwned(s) && Enabled(s, a) && (a.UnregisterId? || a.UnregisterName?)
    ensures QueuesOwned(Apply(s, a))
  {
    var c := a.call;
    var r, idKey := s.calls[c].request, s.calls[c].idKey;
    CallKeysApart(s.calls[c]);
    if a.UnregisterName? {
      if r.name != "" { QueuesUnregistered(s, c, UnregisteringId, r.name); }
      else { QueuesMoved(s, c, UnregisteringId); }
    } else {
      if r.id != 0 { QueuesUnregistered(s, c, Finished, idKey); } else { QueuesMoved(s, c, Finished); }
    }
  }

  lemma QueuesKept(s: State, t: State)
    requires QueuesOwned(s) && t.queues == s.queues && t.calls == s.calls && t.cloud == s.cloud
    ensures QueuesOwned(t)
  {
  }

  lemma QueuesStart(s: State, r: Request)
    requires QueuesOwned(s) && ValidRequest(r)
    ensures QueuesOwned(Apply(s, Start(r)))
  {
  }

  lemma QueuesCloud(s: State, a: Action)
    requires QueuesOwned(s) && Enabled(s, a) && (a.CloudForget? || a.CloudListen?)
    ensures QueuesOwned(Apply(s, a))
  {
  }

  lemma QueuesStep(s: State, a: Action)
    requires CallsValid(s) && QueuesOwned(s) && Enabled(s, a)
    ensures QueuesOwned(Apply(s, a))
  {
    match a
    case RegisterId(_) => QueuesRegistering(s, a);
    case RegisterName(_) => QueuesRegistering(s, a);
    case Send(c) => QueuesMoved(s, c, Waiting);
    case Deliver(n) => QueuesMoved(s, s.pending[n].to.call, UnregisteringName);
    case UnregisterName(_) => QueuesUnregistering(s, a);
    case UnregisterId(_) => QueuesUnregistering(s, a);
    case Start(r) => QueuesStart(s, r);
    case CloudForget => QueuesCloud(s, a);
    case CloudListen => QueuesCloud(s, a);
    case Decode(_) => QueuesKept(s, Apply(s, a));
    case CloudTake(_) => QueuesKept(s, Apply(s, a));
  }

  lemma RouteExplained(s: State, m: Message)
    requires CallsValid(s) && QueuesOwned(s) && DeliveriesExplained(s) && Route(s.queues, m).Some?
    ensures Explained(s, Delivery(Route(s.queues, m).value, m, ById(s.queues, m), s.queues.Keys))
  {
    match Route(s.queues, m).value
    case CallChannel(c) =>
      IdKeyInjective(m.id, s.calls[c].request.id);
      IdKeyApart(m.id, s.calls[c].request);
    case CloudChannel(k) =>
      IdKeyApart(m.id, Request(0, ""));
  }

  lemma DeliveriesDispatched(s: State, m: Message)
    requires CallsValid(s) && QueuesOwned(s) && DeliveriesExplained(s)
    ensures DeliveriesExplained(Dispatched(s, m))
  {
    if Route(s.queues, m).Some? {
      RouteExplained(s, m);
    }
  }

  /** Calls keep their request and their key. */
  ghost predicate Continues(s: State, t: State) {
    && s.cloudSessions <= t.cloudSessions && |s.calls| <= |t.calls|
    && forall c :: 0 <= c < |s.calls| ==>
         t.calls[c].request == s.calls[c].request && t.calls[c].idKey == s.calls[c].idKey
  }

  lemma MovedContinues(s: State, c: nat, phase: Phase)
    requires c < |s.calls|
    ensures Continues(s, Moved(s, c, phase))
  {
  }

  lemma RequestsKept(s: State, a: Action)
    requires Enabled(s, a)
    ensures Continues(s, Apply(s, a))
  {
    match a
    case RegisterId(c) => MovedContinues(s, c, RegisteringName);
    case RegisterName(c) =>
      MovedContinues(s, c, Sending);
      MovedContinues(s, c, Finished);
    case Send(c) => MovedContinues(s, c, Waiting);
    case UnregisterName(c) => MovedContinues(s, c, UnregisteringId);
    case UnregisterId(c) => MovedContinues(s, c, Finished);
    case _ =>
  }

  lemma ExplanationsKept(s: State, t: State)
    requires Continues(s, t)
    ensures forall d :: Explained(s, d) ==> Explained(t, d)
  {
  }

  lemma DeliveriesStep(s: State, a: Action)
    requires CallsValid(s) && QueuesOwned(s) && DeliveriesExplained(s) && Enabled(s, a)
    ensures DeliveriesExplained(Apply(s, a))
  {
    if a.Decode? && a.message.name != HELLO {
      DeliveriesDispatched(s, a.message);
    } else {
      RequestsKept(s, a);
      ExplanationsKept(s, Apply(s, a));
    }
  }

  /** Only decoding and receiving move messages. */
  lemma MessagesUntouched(s: State, a: Action)
    requires Enabled(s, a) && !a.Decode? && !a.Deliver? && !a.CloudTake?
    ensures var t := Apply(s, a);
            t.decoded == s.decoded && t.pending == s.pending && t.received == s.received && t.dropped == s.dropped
  {
  }

  lemma ConservedKept(s: State, t: State)
    requires Conserved(s)
    requires t.decoded == s.decoded && t.pending == s.pending && t.received == s.received && t.dropped == s.dropped
    ensures Conserved(t)
  {
  }

  lemma ConservedTake(s: State, n: nat)
    requires Conserved(s) && n in s.pending
    ensures Conserved(Take(s, n))
  {
  }

  lemma ConservedDispatched(s: State, m: Message)
    requires Conserved(s)
    ensures Conserved(Dispatched(s, m))
  {
  }

  lemma ConservedStep(s: State, a: Action)
    requires Conserved(s) && Enabled(s, a)
    ensures Conserved(Apply(s, a))
  {
    if a.Decode? {
      ConservedDispatched(s, a.message);
    } else if a.Deliver? {
      ConservedTake(s, a.number);
      ConservedKept(Take(s, a.number), Apply(s, a));
    } else if a.CloudTake? {
      ConservedTake(s, a.number);
    } else {
      MessagesUntouched(s, a);
      ConservedKept(s, Apply(s, a));
    }
  }

  lemma ResultsStart(s: State, r: Request)
    requires ResultsReceived(s) && ValidRequest(r)
    ensures ResultsReceived(Apply(s, Start(r)))
  {
  }

  lemma ResultsCloudTake(s: State, n: nat)
    requires Conserved(s) && ResultsReceived(s) && Enabled(s, CloudTake(n))
    ensures ResultsReceived(Apply(s, CloudTake(n)))
  {
  }

  lemma ResultsDelivered(s: State, n: nat)
    requires Conserved(s) && ResultsReceived(s) && Enabled(s, Deliver(n))
    ensures ResultsReceived(Apply(s, Deliver(n)))
  {
  }

  lemma ResultsDispatched(s: State, m: Message)
    requires ResultsReceived(s)
    ensures ResultsReceived(Dispatched(s, m))
  {
  }

  lemma ResultsMoved(s: State, c: nat, phase: Phase)
    requires ResultsReceived(s) && c < |s.calls|
    requires s.calls[c].result.Some? ==> Answered(phase)
    ensures ResultsReceived(Moved(s, c, phase))
  {
  }

  lemma ResultsByMoving(s: State, a: Action)
    requires ResultsReceived(s) && Enabled(s, a)
    requires a.RegisterId? || a.RegisterName? || a.Send? || a.UnregisterName? || a.UnregisterId?
    ensures ResultsReceived(Apply(s, a))
  {
    match a
    case RegisterId(c) => ResultsMoved(s, c, RegisteringName);
    case RegisterName(c) =>
      var r := s.calls[c].request;
      ResultsMoved(s, c, if r.name != "" || r.id != 0 then Sending else Finished);
    case Send(c) => ResultsMoved(s, c, Waiting);
    case UnregisterName(c) => ResultsMoved(s, c, UnregisteringId);
    case UnregisterId(c) => ResultsMoved(s, c, Finished);
  }

  lemma ResultsStep(s: State, a: Action)
    requires Conserved(s) && ResultsReceived(s) && Enabled(s, a)
    ensures ResultsReceived(Apply(s, a))
  {
    if a.RegisterId? || a.RegisterName? || a.Send? || a.UnregisterName? || a.UnregisterId? {
      ResultsByMoving(s, a);
    } else {
      match a
      case Deliver(n) => ResultsDelivered(s, n);
      case Decode(m) => ResultsDispatched(s, m);
      case Start(r) => ResultsStart(s, r);
      case CloudTake(n) => ResultsCloudTake(s, n);
      case CloudForget =>
      case CloudListen =>
    }
  }

  lemma InvStep(s: State, a: Action)
    requires Inv(s) && Enabled(s, a)
    ensures Inv(Apply(s, a))
  {
    CallsValidStep(s, a);
    QueuesStep(s, a);
    DeliveriesStep(s, a);
    ConservedStep(s, a);
    ResultsStep(s, a);
  }
}
