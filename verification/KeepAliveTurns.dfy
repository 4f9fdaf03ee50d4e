/** What one turn of the keep-alive loop of pkg/rockrobo/cloud.go does in any run, told by the
    events of the log before it: when a report upstream is made, what becomes of the schedule,
    the endpoints and the queue, and which messages are sent. */
module KeepAliveTurns {
  import opened Options
  import opened KeepAlive

  // ----- what a log tells

  datatype Kind = ReportOk | ReportFailed | CloudReport | InternetReport | Handshake | Registration | SessionStart

  predicate Is(e: Event, k: Kind) {
    match k
    case ReportOk => e.OtcSucceeded?
    case ReportFailed => e.OtcFailed?
    case CloudReport => e.CloudReported?
    case InternetReport => e.InternetReported?
    case Handshake => e.Awaiting?
    case Registration => e.QueueRegistered?
    case SessionStart => e.SessionStarted?
  }

  /** How many events of a kind there are. */
  function Count(log: Log, k: Kind): nat {
    match log
    case Empty => 0
    case Then(earlier, e) => Count(earlier, k) + if Is(e, k) then 1 else 0
  }

  /** The messages forwarded so far, in order. */
  function Sent(log: Log): seq<nat> {
    match log
    case Empty => []
    case Then(earlier, e) => Sent(earlier) + if e.Forwarded? then [e.content] else []
  }

  /** When the next report is due by the last one that succeeded in this session. */
  function LastReport(log: Log): Option<int> {
    match log
    case Empty => None
    case Then(earlier, e) =>
      if e.OtcSucceeded? then Some(e.next) else if e.SessionStarted? then None else LastReport(earlier)
  }

  /** The channel registered since the connection began. */
  function LastQueue(log: Log): Option<nat> {
    match log
    case Empty => None
    case Then(earlier, e) =>
      if e.QueueRegistered? then Some(e.channel) else if e.QueueForgotten? then None else LastQueue(earlier)
  }

  /** The session that has begun and not ended. */
  function LastSession(log: Log): Option<Session> {
    match log
    case Empty => None
    case Then(earlier, e) =>
      if e.SessionStarted? then Some(Session(e.host, e.address))
      else if e.EndpointRemoved? then None
      else LastSession(earlier)
  }

  /** The host has been found or reported, and not been removed since. */
  predicate Known(log: Log, host: string) {
    match log
    case Empty => false
    case Then(earlier, e) =>
      if e.LookedUp? && host in e.hosts then true
      else if e.OtcSucceeded? && host in e.hosts then true
      else if e.EndpointRemoved? && e.host == host then false
      else Known(earlier, host)
  }

  lemma {:induction false} EndpointsAreKnown(log: Log, host: string)
    ensures host in Fold(log).endpoints <==> Known(log, host)
  {
    if log.Then? {
      EndpointsAreKnown(log.earlier, host);
    }
  }

  lemma {:induction false} ScheduleIsLastReport(log: Log)
    ensures Fold(log).nextStatus == LastReport(log)
  {
    if log.Then? {
      ScheduleIsLastReport(log.earlier);
    }
  }

  lemma {:induction false} QueueIsLastQueue(log: Log)
    ensures Fold(log).queue == LastQueue(log) && Fold(log).channels == Count(log, Registration)
  {
    if log.Then? {
      QueueIsLastQueue(log.earlier);
    }
  }

  lemma {:induction false} SessionIsLastSession(log: Log)
    ensures Fold(log).session == LastSession(log)
  {
    if log.Then? {
      SessionIsLastSession(log.earlier);
    }
  }

  function One(b: bool): nat {
    if b then 1 else 0
  }

  // ----- a turn in a session

  /** The hello of the turn is answered in time by this address. */
  predicate Answered(t: Turn, address: string) {
    t.helloBuilt && t.helloSent && t.hello == Some(address)
  }

  /** No report has succeeded in this session, or the time of the next one is over. */
  predicate ReportDue(log: Log, t: Turn) {
    LastReport(log).None? || t.now > LastReport(log).value
  }

  predicate SendFails(q: QueueEvent) {
    q.Message? && q.built && !q.sent
  }

  function ForwardedBy(q: QueueEvent): seq<nat> {
    if q.Message? && q.built && q.sent then [q.content] else []
  }

  lemma AwaitCounts(log: Log, t: Turn, k: Kind)
    ensures Count(AwaitLog(log, t), k) == Count(log, k) + One(k == Handshake)
  {
    assert Count(Then(log, Awaiting), k) == Count(log, k) + One(k == Handshake);
  }

  lemma FailuresMore(log: Log, e: Event)
    ensures FailuresSince(Then(log, e)) == if Resets(e) then 0 else FailuresSince(log) + One(IsFailure(e))
  {
  }

  lemma AwaitSends(log: Log, t: Turn)
    ensures Sent(AwaitLog(log, t)) == Sent(log) + ForwardedBy(t.queue)
    ensures FailuresSince(AwaitLog(log, t)) == One(SendFails(t.queue))
  {
    assert Sent(Then(log, Awaiting)) == Sent(log) + [] == Sent(log);
    FailuresMore(log, Awaiting);
    assert AwaitLog(log, t).Then? && AwaitLog(log, t).earlier == Then(log, Awaiting);
    FailuresMore(Then(log, Awaiting), AwaitLog(log, t).event);
  }

  lemma AwaitLeaves(log: Log, t: Turn, host: string)
    ensures LastReport(AwaitLog(log, t)) == LastReport(log) && LastQueue(AwaitLog(log, t)) == LastQueue(log)
    ensures LastSession(AwaitLog(log, t)) == LastSession(log) && (Known(AwaitLog(log, t), host) == Known(log, host))
  {
    var log1 := Then(log, Awaiting);
    assert LastReport(log1) == LastReport(log) && LastQueue(log1) == LastQueue(log);
    assert LastSession(log1) == LastSession(log) && Known(log1, host) == Known(log, host);
  }

  /** A report that succeeds, and the message that the cloud is connected. */
  lemma ReportedCounts(log: Log, t: Turn, k: Kind)
    requires t.otc.Some?
    ensures Count(ReportedLog(log, t), k) == Count(log, k) + One(k == ReportOk || k == CloudReport)
    ensures Sent(ReportedLog(log, t)) == Sent(log)
  {
    var log1 := ReportedLog(log, t).earlier;
    assert Count(log1, k) == Count(log, k) + One(k == ReportOk);
    assert Sent(log1) == Sent(log) + [] == Sent(log);
  }

  lemma ReportedLeaves(log: Log, t: Turn, host: string)
    requires t.otc.Some?
    ensures LastReport(ReportedLog(log, t)) == Some(t.otc.value.at + t.otc.value.interval)
    ensures LastQueue(ReportedLog(log, t)) == LastQueue(log) && LastSession(ReportedLog(log, t)) == LastSession(log)
    ensures Known(ReportedLog(log, t), host) <==> Known(log, host) || host in t.otc.value.hosts
  {
    var log1 := ReportedLog(log, t).earlier;
    assert LastReport(log1) == Some(t.otc.value.at + t.otc.value.interval);
    assert LastQueue(log1) == LastQueue(log) && LastSession(log1) == LastSession(log);
    assert Known(log1, host) <==> Known(log, host) || host in t.otc.value.hosts;
  }

  lemma ReportCounts(log: Log, t: Turn, k: Kind)
    ensures var due, after := ReportDue(log, t), ReportLog(log, LastReport(log), t);
            Count(after, k) == Count(log, k) + match k
                                               case ReportOk => One(due && t.otc.Some?)
                                               case CloudReport => One(due && t.otc.Some?)
                                               case ReportFailed => One(due && t.otc.None?)
                                               case Handshake => One(!due || t.otc.Some?)
                                               case _ => 0
  {
    if !ReportDue(log, t) {
      AwaitCounts(log, t, k);
    } else if t.otc.Some? {
      ReportedCounts(log, t, k);
      AwaitCounts(ReportedLog(log, t), t, k);
    }
  }

  lemma ReportSends(log: Log, t: Turn)
    ensures var done, after := !ReportDue(log, t) || t.otc.Some?, ReportLog(log, LastReport(log), t);
            && Sent(after) == Sent(log) + (if done then ForwardedBy(t.queue) else [])
            && FailuresSince(after) == if done then One(SendFails(t.queue)) else FailuresSince(log) + 1
  {
    if !ReportDue(log, t) {
      AwaitSends(log, t);
    } else if t.otc.Some? {
      ReportedCounts(log, t, ReportOk);
      AwaitSends(ReportedLog(log, t), t);
    }
  }

  lemma ReportLeaves(log: Log, t: Turn, host: string)
    ensures var ok, after := ReportDue(log, t) && t.otc.Some?, ReportLog(log, LastReport(log), t);
            && LastReport(after) == (if ok then Some(t.otc.value.at + t.otc.value.interval) else LastReport(log))
            && LastQueue(after) == LastQueue(log) && LastSession(after) == LastSession(log)
            && (Known(after, host) <==> Known(log, host) || (ok && host in t.otc.value.hosts))
  {
    if !ReportDue(log, t) {
      AwaitLeaves(log, t, host);
    } else if t.otc.Some? {
      ReportedLeaves(log, t, host);
      AwaitLeaves(ReportedLog(log, t), t, host);
    }
  }

  /** The events of a matched turn up to the report upstream. */
  function MatchedStart(log: Log, t: Turn): Log
    requires t.hello.Some?
  {
    var log0 := Then(Then(log, Attempt), HelloMatched(t.hello.value));
    var log1 := if LastQueue(log).None? then Then(log0, QueueRegistered(Count(log, Registration))) else log0;
    if LastReport(log).None? then Then(log1, InternetReported) else log1
  }

  lemma MatchedTurn(log: Log, t: Turn)
    requires LastSession(log).Some? && FailuresSince(log) <= 5 && Answered(t, LastSession(log).value.address)
    ensures TurnLog(log, t) == ReportLog(MatchedStart(log, t), LastReport(log), t)
  {
    FailuresCounted(log);
    SessionIsLastSession(log);
    ScheduleIsLastReport(log);
    QueueIsLastQueue(log);
  }

  lemma StartCounts(log: Log, t: Turn, k: Kind)
    requires t.hello.Some?
    ensures Count(MatchedStart(log, t), k)
         == Count(log, k) + match k
                            case Registration => One(LastQueue(log).None?)
                            case InternetReport => One(LastReport(log).None?)
                            case _ => 0
  {
    var log0 := Then(Then(log, Attempt), HelloMatched(t.hello.value));
    assert Count(log0, k) == Count(Then(log, Attempt), k) == Count(log, k);
    var log1 := if LastQueue(log).None? then Then(log0, QueueRegistered(Count(log, Registration))) else log0;
    assert Count(log1, k) == Count(log, k) + One(k == Registration && LastQueue(log).None?);
  }

  lemma StartLeaves(log: Log, t: Turn, host: string)
    requires t.hello.Some?
    ensures var start := MatchedStart(log, t);
            && LastReport(start) == LastReport(log) && LastSession(start) == LastSession(log)
            && (Known(start, host) <==> Known(log, host))
            && LastQueue(start) == if LastQueue(log).None? then Some(Count(log, Registration)) else LastQueue(log)
  {
    var log0 := Then(Then(log, Attempt), HelloMatched(t.hello.value));
    assert LastReport(log0) == LastReport(Then(log, Attempt)) == LastReport(log);
    assert LastSession(log0) == LastSession(Then(log, Attempt)) == LastSession(log);
    assert LastQueue(log0) == LastQueue(Then(log, Attempt)) == LastQueue(log);
    assert Known(log0, host) == Known(Then(log, Attempt), host) == Known(log, host);
    var log1 := if LastQueue(log).None? then Then(log0, QueueRegistered(Count(log, Registration))) else log0;
    assert LastReport(log1) == LastReport(log) && LastSession(log1) == LastSession(log);
    assert Known(log1, host) == Known(log, host);
  }

  lemma StartSends(log: Log, t: Turn)
    requires t.hello.Some?
    ensures Sent(MatchedStart(log, t)) == Sent(log) && FailuresSince(MatchedStart(log, t)) == FailuresSince(log)
  {
    var log0 := Then(Then(log, Attempt), HelloMatched(t.hello.value));
    assert Sent(log0) == Sent(Then(log, Attempt)) == Sent(log);
    assert FailuresSince(log0) == FailuresSince(Then(log, Attempt)) == FailuresSince(log);
    var log1 := if LastQueue(log).None? then Then(log0, QueueRegistered(Count(log, Registration))) else log0;
    assert Sent(log1) == Sent(log) && FailuresSince(log1) == FailuresSince(log);
  }

  /** A turn of a session whose hello is answered by its own address. */
  predicate Matched(log: Log, t: Turn) {
    LastSession(log).Some? && FailuresSince(log) <= 5 && Answered(t, LastSession(log).value.address)
  }

  /** A turn of a session that is not: one event for an attempt that gets nowhere, or the
      removal of the endpoint. */
  lemma OtherTurn(log: Log, t: Turn)
    requires LastSession(log).Some? && !Matched(log, t)
    ensures TurnLog(log, t)
         == if FailuresSince(log) > 5 then Then(log, EndpointRemoved(LastSession(log).value.host))
            else Then(Then(log, Attempt),
                      if !t.helloBuilt then HelloNotBuilt
                      else if !t.helloSent then HelloNotSent
                      else if t.hello.None? then HelloTimedOut
                      else HelloFromElsewhere(t.hello.value))
  {
    FailuresCounted(log);
    SessionIsLastSession(log);
  }

  lemma OtherCounts(log: Log, t: Turn, k: Kind)
    requires LastSession(log).Some? && !Matched(log, t)
    ensures Count(TurnLog(log, t), k) == Count(log, k)
  {
    OtherTurn(log, t);
    assert Count(Then(log, Attempt), k) == Count(log, k);
  }

  /** In every run, how often each of these things happens in a turn of a session. In
      particular a report upstream is made exactly when the hello is answered by the session's
      address and no report of the session has succeeded yet, or the time of the next one is
      over. */
  lemma TurnCounts(turns: seq<Turn>, t: Turn, k: Kind)
    requires LastSession(RunLog(turns)).Some?
    ensures var log := RunLog(turns);
            var after, matched := TurnLog(log, t), Matched(log, t);
            var due := matched && ReportDue(log, t);
            Count(after, k) == Count(log, k) + match k
                                               case ReportOk => One(due && t.otc.Some?)
                                               case ReportFailed => One(due && t.otc.None?)
                                               case CloudReport => One(due && t.otc.Some?)
                                               case InternetReport => One(matched && LastReport(log).None?)
                                               case Handshake => One(matched && (!due || t.otc.Some?))
                                               case Registration => One(matched && LastQueue(log).None?)
                                               case SessionStart => 0
  {
    var log := RunLog(turns);
    if Matched(log, t) {
      var start := MatchedStart(log, t);
      MatchedTurn(log, t);
      StartCounts(log, t, k);
      StartLeaves(log, t, "");
      ReportCounts(start, t, k);
    } else {
      OtherCounts(log, t, k);
    }
  }

  /** A turn of a session makes a report upstream if and only if its hello is answered by the
      session's address in time, and the session has had no successful report since it
      started, or the turn is after the time that the last one set. */
  lemma ReportsExactly(turns: seq<Turn>, t: Turn)
    requires LastSession(RunLog(turns)).Some?
    ensures (var log := RunLog(turns);
             var after, last := TurnLog(log, t), LastReport(log);
             Count(after, ReportOk) + Count(after, ReportFailed) > Count(log, ReportOk) + Count(log, ReportFailed)
             <==> FailuresSince(log) <= 5
                  && t.helloBuilt && t.helloSent && t.hello == Some(LastSession(log).value.address)
                  && (last.None? || t.now > last.value))
  {
    TurnCounts(turns, t, ReportOk);
    TurnCounts(turns, t, ReportFailed);
  }

  lemma OtherLeaves(log: Log, t: Turn, host: string)
    requires LastSession(log).Some? && !Matched(log, t)
    ensures var after, gone := TurnLog(log, t), FailuresSince(log) > 5;
            && LastReport(after) == LastReport(log) && LastQueue(after) == LastQueue(log)
            && LastSession(after) == (if gone then None else LastSession(log))
            && (Known(after, host) <==> Known(log, host) && !(gone && host == LastSession(log).value.host))
  {
    OtherTurn(log, t);
    var log1 := Then(log, Attempt);
    assert LastReport(log1) == LastReport(log) && LastQueue(log1) == LastQueue(log);
    assert LastSession(log1) == LastSession(log) && Known(log1, host) == Known(log, host);
  }

  /** What stands after a turn of a session: the schedule is set by a successful report to
      its time and interval and the hosts of its reply are known then; a queue is registered
      when there is none; with six failures the session and its host are gone. */
  lemma TurnLeaves(turns: seq<Turn>, t: Turn, host: string)
    requires LastSession(RunLog(turns)).Some?
    ensures var log := RunLog(turns);
            var after, matched, gone := TurnLog(log, t), Matched(log, t), FailuresSince(log) > 5;
            var ok := matched && ReportDue(log, t) && t.otc.Some?;
            && LastReport(after) == (if ok then Some(t.otc.value.at + t.otc.value.interval) else LastReport(log))
            && LastQueue(after) == (if matched && LastQueue(log).None? then Some(Count(log, Registration))
                                    else LastQueue(log))
            && LastSession(after) == (if gone then None else LastSession(log))
            && (Known(after, host) <==> (Known(log, host) && !(gone && host == LastSession(log).value.host))
                                        || (ok && host in t.otc.value.hosts))
  {
    var log := RunLog(turns);
    if Matched(log, t) {
      MatchedTurn(log, t);
      StartLeaves(log, t, host);
      ReportLeaves(MatchedStart(log, t), t, host);
    } else {
      OtherLeaves(log, t, host);
    }
  }

  lemma OtherSends(log: Log, t: Turn)
    requires LastSession(log).Some? && !Matched(log, t)
    ensures Sent(TurnLog(log, t)) == Sent(log)
    ensures FailuresSince(TurnLog(log, t)) == FailuresSince(log) +
              One(FailuresSince(log) <= 5 && (!t.helloBuilt || !t.helloSent || t.hello.None?))
  {
    OtherTurn(log, t);
    assert Sent(Then(log, Attempt)) == Sent(log) + [] == Sent(log);
    FailuresMore(log, Attempt);
    FailuresMore(TurnLog(log, t).earlier, TurnLog(log, t).event);
  }

  /** The message of a turn is sent exactly after a completed handshake, and a handshake
      clears the failures: then only a message that cannot be sent counts. */
  lemma TurnSends(turns: seq<Turn>, t: Turn)
    requires LastSession(RunLog(turns)).Some?
    ensures var log := RunLog(turns);
            var after, matched := TurnLog(log, t), Matched(log, t);
            var done := matched && (!ReportDue(log, t) || t.otc.Some?);
            && Sent(after) == Sent(log) + (if done then ForwardedBy(t.queue) else [])
            && FailuresSince(after)
            == if done then One(SendFails(t.queue))
               else FailuresSince(log)
                    + One(matched || (FailuresSince(log) <= 5 && (!t.helloBuilt || !t.helloSent || t.hello.None?)))
  {
    var log := RunLog(turns);
    if Matched(log, t) {
      MatchedTurn(log, t);
      StartSends(log, t);
      StartLeaves(log, t, "");
      ReportSends(MatchedStart(log, t), t);
    } else {
      OtherSends(log, t);
    }
  }

  // ----- a turn between sessions

  /** Hosts found by the lookup of a turn, which is made only when no host is known. */
  predicate Found(log: Log, t: Turn, host: string) {
    Fold(log).endpoints == {} && t.lookup.Some? && host in t.lookup.value
  }

  ghost predicate SomeKnown(log: Log) {
    exists host :: Known(log, host)
  }

  lemma NoneKnown(log: Log)
    ensures Fold(log).endpoints != {} <==> SomeKnown(log)
  {
    if Fold(log).endpoints != {} {
      var host :| host in Fold(log).endpoints;
      EndpointsAreKnown(log, host);
      assert Known(log, host);
    }
    if host :| Known(log, host) {
      EndpointsAreKnown(log, host);
    }
  }

  /** The log of a turn up to the choice of an endpoint. */
  function ConnectStart(log: Log, t: Turn): Log {
    var log1 := Then(log, QueueForgotten);
    if Fold(log).endpoints == {} && t.lookup.Some? then Then(log1, LookedUp(t.lookup.value)) else log1
  }

  lemma ConnectStartLeaves(log: Log, t: Turn, host: string)
    ensures var start := ConnectStart(log, t);
            && LastQueue(start) == None && LastSession(start) == LastSession(log)
            && (Known(start, host) <==> Known(log, host) || Found(log, t, host))
  {
    assert Known(Then(log, QueueForgotten), host) == Known(log, host);
    assert LastSession(Then(log, QueueForgotten)) == LastSession(log);
  }

  /** What follows: an error, or a session with the chosen endpoint. */
  function ConnectEnd(log: Log, t: Turn): Event {
    if Fold(log).endpoints == {} && t.lookup.None? then LookupFailed
    else if Fold(log).endpoints == {} && t.lookup.value == {} then NoEndpoints
    else if t.address.None? then AddressFailed(t.host)
    else SessionStarted(t.host, t.address.value)
  }

  lemma ConnectTurn(log: Log, t: Turn)
    requires LastSession(log).None?
    ensures TurnLog(log, t) == Then(ConnectStart(log, t), ConnectEnd(log, t))
  {
    SessionIsLastSession(log);
  }

  lemma HostIsKnown(log: Log, t: Turn)
    requires LastSession(log).None? && Possible(Fold(log), t)
    ensures SomeKnown(ConnectStart(log, t)) <==> Fold(log).endpoints != {} || (t.lookup.Some? && t.lookup.value != {})
    ensures SomeKnown(ConnectStart(log, t)) ==> Known(ConnectStart(log, t), t.host)
  {
    SessionIsLastSession(log);
    NoneKnown(log);
    if Fold(log).endpoints != {} {
      EndpointsAreKnown(log, t.host);
      ConnectStartLeaves(log, t, t.host);
    } else if t.lookup.Some? && t.lookup.value != {} {
      ConnectStartLeaves(log, t, t.host);
    } else if host :| Known(ConnectStart(log, t), host) {
      ConnectStartLeaves(log, t, host);
    }
  }

  /** In every run, what a turn between sessions leads to: the cloud entry goes; a lookup
      adds its hosts only when none is known; and a session with a known host starts exactly
      when there is one and its address can be found, with nothing scheduled and no failures. */
  lemma TurnConnects(turns: seq<Turn>, t: Turn, host: string)
    requires Run(turns) && LastSession(RunLog(turns)).None? && Possible(Fold(RunLog(turns)), t)
    ensures var log := RunLog(turns);
            var after := TurnLog(log, t);
            && LastQueue(after) == None
            && (Known(after, host) <==> Known(log, host)
                                        || (!SomeKnown(log) && t.lookup.Some? && host in t.lookup.value))
            && LastSession(after) == (if SomeKnown(after) && t.address.Some?
                                      then Some(Session(t.host, t.address.value)) else None)
            && (LastSession(after).Some? ==>
                  Known(after, t.host) && LastReport(after) == None && FailuresSince(after) == 0)
  {
    var log := RunLog(turns);
    var start, after := ConnectStart(log, t), TurnLog(log, t);
    ConnectTurn(log, t);
    ConnectStartLeaves(log, t, host);
    NoneKnown(log);
    HostIsKnown(log, t);
    forall h ensures Known(after, h) == Known(start, h) {
    }
    assert SomeKnown(after) <==> SomeKnown(start) by {
      if h :| Known(after, h) { assert Known(start, h); }
      if h :| Known(start, h) { assert Known(after, h); }
    }
    FailuresMore(start, ConnectEnd(log, t));
  }
}
