/** The program's side of the correlation of requests and responses: the shared map of
    pkg/rockrobo/rockrobo.go and the goroutines that use it, changed in place. */
module Retrieval {
  import opened Options
  import opened Keys
  import opened Correlation
  import opened CorrelationRuns

  /** Each method is a stretch of code between two points where another goroutine can run. */
  class Rockrobo {
    var incomingQueues: map<string, Channel>
    var calls: seq<Call>
    var cloudChannel: Option<nat>
    var cloudSessions: nat
    var deliveries: map<nat, Delivery>
    ghost var decoded: seq<Message>
    ghost var received: map<nat, Delivery>
    ghost var dropped: set<nat>
    var numbered: nat

    ghost function Now(): State
      reads this
    {
      State(incomingQueues, calls, cloudChannel, cloudSessions, decoded, deliveries, received, dropped)
    }

    ghost predicate Valid()
      reads this
    {
      numbered == |decoded| && Inv(Now())
    }

    constructor ()
      ensures Valid() && Now() == INITIAL
    {
      incomingQueues, calls, cloudChannel, cloudSessions, deliveries := map[], [], None, 0, map[];
      decoded, received, dropped, numbered := [], map[], {}, 0;
    }

    method Start(r: Request) returns (c: nat)
      requires Valid() && Enabled(Now(), Action.Start(r))
      modifies this
      ensures Valid() && Now() == Apply(old(Now()), Action.Start(r)) && c == |old(calls)|
    {
      InvStep(Now(), Action.Start(r));
      c := |calls|;
      calls := calls + [Call(r, IdKey(r.id), RegisteringId, None)];
    }

    method Move(c: nat, phase: Phase)
      requires c < |calls|
      modifies this`calls
      ensures Now() == Moved(old(Now()), c, phase)
    {
      calls := calls[c := calls[c].(phase := phase)];
    }

    method RegisterId(c: nat)
      requires Valid() && Enabled(Now(), Action.RegisterId(c))
      modifies this
      ensures Valid() && Now() == Apply(old(Now()), Action.RegisterId(c))
    {
      InvStep(Now(), Action.RegisterId(c));
      if calls[c].request.id != 0 {
        incomingQueues := incomingQueues[IdKey(calls[c].request.id) := CallChannel(c)];
      }
      Move(c, RegisteringName);
    }

    /** Registers the response name. Without any key the call ends with an error. */
    method RegisterName(c: nat)
      requires Valid() && Enabled(Now(), Action.RegisterName(c))
      modifies this
      ensures Valid() && Now() == Apply(old(Now()), Action.RegisterName(c))
    {
      InvStep(Now(), Action.RegisterName(c));
      var r := calls[c].request;
      var responseHandled := r.id != 0;
      if r.name != "" {
        incomingQueues := incomingQueues[r.name := CallChannel(c)];
        responseHandled := true;
      }
      Move(c, if responseHandled then Sending else Finished);
    }

    method UnregisterName(c: nat)
      requires Valid() && Enabled(Now(), Action.UnregisterName(c))
      modifies this
      ensures Valid() && Now() == Apply(old(Now()), Action.UnregisterName(c))
    {
      InvStep(Now(), Action.UnregisterName(c));
      if calls[c].request.name != "" {
        incomingQueues := incomingQueues - {calls[c].request.name};
      }
      Move(c, UnregisteringId);
    }

    method UnregisterId(c: nat)
      requires Valid() && Enabled(Now(), Action.UnregisterId(c))
      modifies this
      ensures Valid() && Now() == Apply(old(Now()), Action.UnregisterId(c))
    {
      InvStep(Now(), Action.UnregisterId(c));
      if calls[c].request.id != 0 {
        incomingQueues := incomingQueues - {IdKey(calls[c].request.id)};
      }
      Move(c, Finished);
    }

    /** Looks a channel up: by identifier, and by name if that finds none. */
    method Lookup(m: Message) returns (dataCh: Option<Channel>)
      ensures dataCh == Route(incomingQueues, m)
    {
      dataCh := None;
      if m.id != 0 {
        var key := IdKey(m.id);
        if key in incomingQueues {
          dataCh := Some(incomingQueues[key]);
        }
      }
      if dataCh.None? && m.name in incomingQueues {
        dataCh := Some(incomingQueues[m.name]);
      }
    }

    /** One round of the reader of a local connection. */
    method Decode(m: Message)
      requires Valid()
      modifies this
      ensures Valid() && Now() == Apply(old(Now()), Action.Decode(m))
    {
      InvStep(Now(), Action.Decode(m));
      if m.name == HELLO {
        return;
      }
      var dataCh := Lookup(m);
      var n := numbered;
      decoded := decoded + [m];
      numbered := numbered + 1;
      if dataCh.None? {
        dropped := dropped + {n};
        return;
      }
      deliveries := deliveries[n := Delivery(dataCh.value, m, ById(incomingQueues, m), incomingQueues.Keys)];
    }

    /** A delivery and the call that waits on its channel meet. */
    method Deliver(n: nat)
      requires Valid() && Enabled(Now(), Action.Deliver(n))
      modifies this
      ensures Valid() && Now() == Apply(old(Now()), Action.Deliver(n))
    {
      InvStep(Now(), Action.Deliver(n));
      var c := deliveries[n].to.call;
      received := received[n := deliveries[n]];
      deliveries := deliveries - {n};
      calls := calls[c := calls[c].(phase := UnregisteringName, result := Some(n))];
    }

    /** The request is in the outgoing queue. */
    method Send(c: nat)
      requires Valid() && Enabled(Now(), Action.Send(c))
      modifies this
      ensures Valid() && Now() == Apply(old(Now()), Action.Send(c))
    {
      InvStep(Now(), Action.Send(c));
      Move(c, Waiting);
    }

    /** The cloud session begins again: its entry goes, whether it is there or not. */
    method CloudForget()
      requires Valid()
      modifies this
      ensures Valid() && Now() == Apply(old(Now()), Action.CloudForget)
    {
      InvStep(Now(), Action.CloudForget);
      incomingQueues := incomingQueues - {CLOUD};
      cloudChannel := None;
    }

    /** The cloud session registers a channel of its own. */
    method CloudListen()
      requires Valid() && Enabled(Now(), Action.CloudListen)
      modifies this
      ensures Valid() && Now() == Apply(old(Now()), Action.CloudListen)
    {
      ghost var next := Apply(Now(), Action.CloudListen);
      InvStep(Now(), Action.CloudListen);
      incomingQueues := incomingQueues[CLOUD := CloudChannel(cloudSessions)];
      cloudChannel := Some(cloudSessions);
      cloudSessions := cloudSessions + 1;
      assert Now() == next;
    }

    /** A delivery and the cloud session meet. */
    method CloudTake(n: nat)
      requires Valid() && Enabled(Now(), Action.CloudTake(n))
      modifies this
      ensures Valid() && Now() == Apply(old(Now()), Action.CloudTake(n))
    {
      InvStep(Now(), Action.CloudTake(n));
      received := received[n := deliveries[n]];
      deliveries := deliveries - {n};
    }

    method Step(a: Action)
      requires Valid() && Enabled(Now(), a)
      modifies this
      ensures Valid() && Now() == Apply(old(Now()), a)
    {
      match a
      case Start(r) => var _ := Start(r);
      case RegisterId(c) => RegisterId(c);
      case RegisterName(c) => RegisterName(c);
      case Send(c) => Send(c);
      case Decode(m) => Decode(m);
      case Deliver(n) => Deliver(n);
      case UnregisterName(c) => UnregisterName(c);
      case UnregisterId(c) => UnregisterId(c);
      case CloudForget => CloudForget();
      case CloudListen => CloudListen();
      case CloudTake(n) => CloudTake(n);
    }
  }

  /** Any run, in any interleaving: the fields are those of the machine, so all that holds
      of its runs holds of the program's. */
  method RunSteps(r: Rockrobo, actions: seq<Action>)
    requires r.Valid() && r.Now() == INITIAL && Run(actions)
    modifies r
    ensures r.Valid() && r.Now() == Final(actions)
  {
    for i := 0 to |actions|
      invariant r.Valid() && After(actions[..i]) == Some(r.Now())
    {
      RunPrefix(actions, i + 1);
      assert actions[..i + 1][..i] == actions[..i];
      r.Step(actions[i]);
    }
    assert actions[..|actions|] == actions;
  }
}
