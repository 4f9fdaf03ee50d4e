/** The keep-alive loop as the program runs it, on fields that it updates in place. Its
    log is what it has observed and done; the fields are at any time the fold of it. */
module KeepAliveLoop {
  import opened Options
  import opened KeepAlive

  class Loop {
    var endpoints: set<string>
    var session: Option<Session>
    var failedAttempts: nat
    var nextStatus: Option<int>
    var queueEntry: Option<nat>   // the "cloud" entry of the incoming queues
    var channel: Option<nat>      // the channel that the loop receives from
    var channels: nat
    ghost var log: Log

    ghost predicate Valid()
      reads this
    {
      var s := Fold(log);
      && endpoints == s.endpoints && session == s.session && failedAttempts == s.failures
      && nextStatus == s.nextStatus && queueEntry == s.queue && channel == s.queue && channels == s.channels
    }

    constructor ()
      ensures Valid() && log == Empty
    {
      endpoints, session, failedAttempts, nextStatus := {}, None, 0, None;
      queueEntry, channel, channels, log := None, None, 0, Empty;
    }

    /** Picks an endpoint and starts a session with it. */
    method Choose(t: Turn)
      requires Valid() && (endpoints != {} ==> t.host in endpoints)
      modifies this
      ensures Valid() && log == ChooseLog(old(log), old(endpoints), t)
    {
      if endpoints == {} {
        log := Then(log, NoEndpoints);
        return;
      }
      if t.address.None? {
        log := Then(log, AddressFailed(t.host));
        return;
      }
      session := Some(Session(t.host, t.address.value));
      failedAttempts := 0;
      nextStatus := None;
      log := Then(log, SessionStarted(t.host, t.address.value));
    }

    /** One pass through the connection loop up to the start of a session. */
    method Connect(t: Turn)
      requires Valid() && session.None? && Possible(Fold(log), t)
      modifies this
      ensures Valid() && log == ConnectLog(old(log), old(endpoints), t)
    {
      queueEntry := None;
      channel := None;
      log := Then(log, QueueForgotten);
      if endpoints == {} {
        if t.lookup.None? {
          log := Then(log, LookupFailed);
          return;
        }
        endpoints := endpoints + t.lookup.value;
        log := Then(log, LookedUp(t.lookup.value));
        assert endpoints == t.lookup.value;
      }
      Choose(t);
    }

    /** Notes an event that changes nothing but the count of failures. */
    method Note(e: Event)
      requires Valid()
      requires e.QueueSilent? || e.MessageNotBuilt? || e.Forwarded? || e.InternetReported?
            || e.HelloFromElsewhere? || IsFailure(e)
      modifies this
      ensures Valid() && log == Then(old(log), e)
    {
      if IsFailure(e) {
        failedAttempts := failedAttempts + 1;
      }
      log := Then(log, e);
    }

    /** The end of an attempt: the handshake is complete, and a message is awaited. */
    method AwaitMessage(t: Turn)
      requires Valid()
      modifies this
      ensures Valid() && log == AwaitLog(old(log), t)
    {
      failedAttempts := 0;
      log := Then(log, Awaiting);
      match t.queue
      case Silence => Note(QueueSilent);
      case Message(content, built, sent) =>
        if !built {
          Note(MessageNotBuilt);
        } else if !sent {
          Note(MessageNotSent);
        } else {
          Note(Forwarded(content));
        }
    }

    /** Reports upstream when that is due. */
    method Report(t: Turn)
      requires Valid()
      modifies this
      ensures Valid() && log == ReportLog(old(log), old(nextStatus), t)
    {
      if Due(nextStatus, t.now) {
        if t.otc.None? {
          Note(OtcFailed);
          return;
        }
        nextStatus := Some(t.otc.value.at + t.otc.value.interval);
        endpoints := endpoints + t.otc.value.hosts;
        log := Then(log, OtcSucceeded(t.otc.value.at + t.otc.value.interval, t.otc.value.hosts));
        log := Then(log, CloudReported);
      }
      AwaitMessage(t);
    }

    /** What follows a matching hello reply. */
    method Matched(t: Turn, ghost s: State)
      requires Valid() && s.queue == channel && s.channels == channels && s.nextStatus == nextStatus
      modifies this
      ensures Valid() && log == MatchedLog(old(log), s, t)
    {
      if channel.None? {
        channel := Some(channels);
        queueEntry := channel;
        channels := channels + 1;
        log := Then(log, QueueRegistered(channel.value));
      }
      if nextStatus.None? {
        Note(InternetReported);
      }
      Report(t);
    }

    /** One pass through the loop: within a session a keep-alive attempt or the removal of
        the endpoint, otherwise the choice of an endpoint. */
    method Pass(t: Turn)
      requires Valid() && Possible(Fold(log), t)
      modifies this
      ensures Valid() && log == TurnLog(old(log), t)
    {
      if session.None? {
        Connect(t);
        return;
      }
      if failedAttempts != 0 && failedAttempts > 5 {
        var host := session.value.host;
        endpoints := endpoints - {host};
        session := None;
        log := Then(log, EndpointRemoved(host));
        return;
      }
      ghost var s := Fold(log);
      log := Then(log, Attempt);
      if !t.helloBuilt {
        Note(HelloNotBuilt);
      } else if !t.helloSent {
        Note(HelloNotSent);
      } else if t.hello.None? {
        Note(HelloTimedOut);
      } else if t.hello.value != session.value.address {
        Note(HelloFromElsewhere(t.hello.value));
      } else {
        log := Then(log, HelloMatched(t.hello.value));
        Matched(t, s);
      }
    }
  }

  /** The loop over any number of passes. */
  method RunLoop(loop: Loop, turns: seq<Turn>)
    requires loop.Valid() && loop.log == Empty && Run(turns)
    modifies loop
    ensures loop.Valid() && loop.log == RunLog(turns)
    ensures loop.failedAttempts <= 6 && loop.failedAttempts == FailuresSince(RunLog(turns))
    ensures loop.queueEntry == loop.channel
  {
    for i := 0 to |turns|
      invariant loop.Valid() && loop.log == RunLog(turns[..i])
    {
      RunPrefix(turns, i);
      loop.Pass(turns[i]);
    }
    assert turns[..|turns|] == turns;
    RunLegal(turns);
    LegalMeansAtMostSix(RunLog(turns));
    FailuresCounted(RunLog(turns));
  }
}
