/** The keep-alive loop of pkg/rockrobo/cloud.go. Everything that the loop observes and
    does is an event; the state of the loop is a fold of the events so far. One turn is
    one pass through the connection loop or, within a session, the session loop. */
module KeepAlive {
  import opened Options

  datatype Event =
    | QueueForgotten
    | LookupFailed
    | LookedUp(hosts: set<string>)
    | NoEndpoints
    | AddressFailed(host: string)
    | SessionStarted(host: string, address: string)
    | EndpointRemoved(host: string)
    | Attempt
    | HelloNotBuilt
    | HelloNotSent
    | HelloTimedOut
    | HelloFromElsewhere(address: string)
    | HelloMatched(address: string)
    | QueueRegistered(channel: nat)
    | InternetReported
    | OtcFailed
    | OtcSucceeded(next: int, hosts: set<string>)
    | CloudReported
    | Awaiting
    | QueueSilent
    | MessageNotBuilt
    | MessageNotSent
    | Forwarded(content: nat)

  /** The events so far, the latest one outermost. */
  datatype Log = Empty | Then(earlier: Log, event: Event)

  datatype Session = Session(host: string, address: string)

  /** `matched` tells whether the current attempt has had a matching hello reply, and
      `otcFresh` whether the last event was a successful report upstream. */
  datatype State = State(
    endpoints: set<string>,
    session: Option<Session>,
    failures: nat,
    queue: Option<nat>,
    channels: nat,
    nextStatus: Option<int>,
    matched: bool,
    otcFresh: bool)

  const INITIAL := State({}, None, 0, None, 0, None, false, false)

  predicate IsFailure(e: Event) {
    e.HelloNotBuilt? || e.HelloNotSent? || e.HelloTimedOut? || e.OtcFailed? || e.MessageNotSent?
  }

  /** What an event does to the state. */
  function Next(s: State, e: Event): State {
    var t := s.(otcFresh := e.OtcSucceeded?, failures := if IsFailure(e) then s.failures + 1 else s.failures);
    match e
    case QueueForgotten => t.(queue := None)
    case LookedUp(hosts) => t.(endpoints := s.endpoints + hosts)
    case SessionStarted(host, address) =>
      t.(session := Some(Session(host, address)), failures := 0, nextStatus := None, matched := false)
    case EndpointRemoved(host) => t.(endpoints := s.endpoints - {host}, session := None, matched := false)
    case Attempt => t.(matched := false)
    case HelloMatched(_) => t.(matched := true)
    case QueueRegistered(k) => t.(queue := Some(k), channels := s.channels + 1)
    case OtcSucceeded(next, hosts) => t.(nextStatus := Some(next), endpoints := s.endpoints + hosts)
    case Awaiting => t.(failures := 0)
    case _ => t
  }

  function Fold(log: Log): State {
    match log
    case Empty => INITIAL
    case Then(earlier, e) => Next(Fold(earlier), e)
  }

  /** When an event is in order. */
  predicate Legal(s: State, e: Event) {
    match e
    case EndpointRemoved(host) => s.session.Some? && s.session.value.host == host && s.failures == 6
    case SessionStarted(host, _) => s.session.None? && s.queue.None? && host in s.endpoints
    case Attempt => s.session.Some? && s.failures <= 5
    case HelloMatched(address) => s.session.Some? && s.session.value.address == address
    case HelloFromElsewhere(address) => s.session.Some? && s.session.value.address != address
    case QueueRegistered(k) => s.matched && s.queue.None? && k == s.channels
    case InternetReported => s.matched && s.queue.Some? && s.nextStatus.None?
    case OtcSucceeded(_, _) => s.matched && s.queue.Some?
    case CloudReported => s.matched && s.otcFresh
    case Awaiting => s.matched && s.queue.Some? && s.nextStatus.Some?
    case QueueSilent => s.matched && s.failures == 0
    case MessageNotBuilt => s.matched && s.failures == 0
    case MessageNotSent => s.matched && s.queue.Some? && s.failures == 0
    case Forwarded(_) => s.matched && s.queue.Some? && s.failures == 0
    case HelloNotBuilt => s.failures <= 5
    case HelloNotSent => s.failures <= 5
    case HelloTimedOut => s.failures <= 5
    case OtcFailed => s.matched && s.failures <= 5
    case QueueForgotten => s.session.None?
    case _ => s.session.None?
  }

  /** Every event is in order in the state that those before it lead to. */
  predicate AllLegal(log: Log) {
    match log
    case Empty => true
    case Then(earlier, e) => AllLegal(earlier) && Legal(Fold(earlier), e)
  }

  predicate PrefixOf(p: Log, log: Log) {
    p == log || (log.Then? && PrefixOf(p, log.earlier))
  }

  /** What happens around the loop in one turn: answers of the network, of the random
      choice and of the clock. Fields that a turn does not get to have no effect. */
  datatype Turn = Turn(
    lookup: Option<set<string>>,
    host: string,
    address: Option<string>,
    helloBuilt: bool,
    helloSent: bool,
    hello: Option<string>,
    now: int,
    otc: Option<OtcInfo>,
    queue: QueueEvent)

  datatype OtcInfo = OtcInfo(at: int, interval: int, hosts: set<string>)

  datatype QueueEvent = Silence | Message(content: nat, built: bool, sent: bool)

  /** The random choice falls on a known endpoint. */
  predicate Possible(s: State, t: Turn) {
    s.session.None? ==>
      var known := if s.endpoints == {} && t.lookup.Some? then t.lookup.value else s.endpoints;
      known != {} ==> t.host in known
  }

  // ----- the events of a turn, added to those before it

  function ChooseLog(log: Log, endpoints: set<string>, t: Turn): Log {
    if endpoints == {} then Then(log, NoEndpoints)
    else if t.address.None? then Then(log, AddressFailed(t.host))
    else Then(log, SessionStarted(t.host, t.address.value))
  }

  function ConnectLog(log: Log, endpoints: set<string>, t: Turn): Log {
    var log1 := Then(log, QueueForgotten);
    if endpoints != {} then ChooseLog(log1, endpoints, t)
    else if t.lookup.None? then Then(log1, LookupFailed)
    else ChooseLog(Then(log1, LookedUp(t.lookup.value)), t.lookup.value, t)
  }

  function AwaitLog(log: Log, t: Turn): Log {
    Then(Then(log, Awaiting),
      match t.queue
      case Silence => QueueSilent
      case Message(content, built, sent) =>
        if !built then MessageNotBuilt else if !sent then MessageNotSent else Forwarded(content))
  }

  /** The next status is due when none is scheduled or its time has passed. */
  predicate Due(nextStatus: Option<int>, now: int) {
    nextStatus.None? || nextStatus.value < now
  }

  /** The log up to the report that the cloud is connected. */
  function ReportedLog(log: Log, t: Turn): Log
    requires t.otc.Some?
  {
    Then(Then(log, OtcSucceeded(t.otc.value.at + t.otc.value.interval, t.otc.value.hosts)), CloudReported)
  }

  function ReportLog(log: Log, nextStatus: Option<int>, t: Turn): Log {
    if !Due(nextStatus, t.now) then AwaitLog(log, t)
    else if t.otc.None? then Then(log, OtcFailed)
    else
      AwaitLog(ReportedLog(log, t), t)
  }

  function MatchedLog(log: Log, s: State, t: Turn): Log {
    var log1 := if s.queue.None? then Then(log, QueueRegistered(s.channels)) else log;
    var log2 := if s.nextStatus.None? then Then(log1, InternetReported) else log1;
    ReportLog(log2, s.nextStatus, t)
  }

  function AttemptLog(log: Log, s: State, t: Turn): Log
    requires s.session.Some?
  {
    if !t.helloBuilt then Then(log, HelloNotBuilt)
    else if !t.helloSent then Then(log, HelloNotSent)
    else if t.hello.None? then Then(log, HelloTimedOut)
    else if t.hello.value != s.session.value.address then Then(log, HelloFromElsewhere(t.hello.value))
    else MatchedLog(Then(log, HelloMatched(t.hello.value)), s, t)
  }

  function TurnLog(log: Log, t: Turn): Log {
    var s := Fold(log);
    if s.session.None? then ConnectLog(log, s.endpoints, t)
    else if s.failures > 5 then Then(log, EndpointRemoved(s.session.value.host))
    else AttemptLog(Then(log, Attempt), s, t)
  }

  // ----- runs

  /** The events of a run of any length. */
  function RunLog(turns: seq<Turn>): Log {
    if turns == [] then Empty else TurnLog(RunLog(turns[..|turns| - 1]), turns[|turns| - 1])
  }

  predicate Run(turns: seq<Turn>) {
    turns == [] ||
    (Run(turns[..|turns| - 1]) && Possible(Fold(RunLog(turns[..|turns| - 1])), turns[|turns| - 1]))
  }

  lemma ConnectLegal(log: Log, t: Turn)
    requires AllLegal(log) && Fold(log).session.None? && Possible(Fold(log), t)
    ensures AllLegal(ConnectLog(log, Fold(log).endpoints, t))
  {
    var log1 := Then(log, QueueForgotten);
    assert AllLegal(log1);
    if Fold(log).endpoints == {} && t.lookup.Some? {
      assert AllLegal(Then(log1, LookedUp(t.lookup.value)));
    }
  }

  lemma AwaitLegal(log: Log, t: Turn)
    requires AllLegal(log)
    requires Fold(log).matched && Fold(log).queue.Some? && Fold(log).nextStatus.Some?
    ensures AllLegal(AwaitLog(log, t))
  {
    assert AllLegal(Then(log, Awaiting));
  }

  lemma ReportedLegal(log: Log, next: int, hosts: set<string>)
    requires AllLegal(log) && Fold(log).matched && Fold(log).queue.Some?
    ensures var log2 := Then(Then(log, OtcSucceeded(next, hosts)), CloudReported);
            AllLegal(log2) && Fold(log2).matched && Fold(log2).queue.Some? && Fold(log2).nextStatus.Some?
  {
    assert AllLegal(Then(log, OtcSucceeded(next, hosts)));
  }

  lemma OtcFailedLegal(log: Log)
    requires AllLegal(log) && Fold(log).matched && Fold(log).failures <= 5
    ensures AllLegal(Then(log, OtcFailed))
  {
  }

  lemma ReportedThenAwait(log: Log, nextStatus: Option<int>, t: Turn)
    requires Due(nextStatus, t.now) && t.otc.Some?
    ensures ReportLog(log, nextStatus, t) == AwaitLog(ReportedLog(log, t), t)
  {
  }

  lemma ReportedAwaitLegal(log: Log, t: Turn)
    requires AllLegal(log) && Fold(log).matched && Fold(log).queue.Some? && t.otc.Some?
    ensures AllLegal(AwaitLog(ReportedLog(log, t), t))
  {
    ReportedLegal(log, t.otc.value.at + t.otc.value.interval, t.otc.value.hosts);
    AwaitLegal(ReportedLog(log, t), t);
  }

  lemma ReportSucceedsLegal(log: Log, t: Turn)
    requires AllLegal(log) && Fold(log).matched && Fold(log).queue.Some?
    requires Due(Fold(log).nextStatus, t.now) && t.otc.Some?
    ensures AllLegal(ReportLog(log, Fold(log).nextStatus, t))
  {
    ReportedAwaitLegal(log, t);
    ReportedThenAwait(log, Fold(log).nextStatus, t);
  }

  lemma ReportLegal(log: Log, t: Turn)
    requires AllLegal(log) && Fold(log).matched && Fold(log).queue.Some? && Fold(log).failures <= 5
    ensures AllLegal(ReportLog(log, Fold(log).nextStatus, t))
  {
    if !Due(Fold(log).nextStatus, t.now) {
      AwaitLegal(log, t);
      assert ReportLog(log, Fold(log).nextStatus, t) == AwaitLog(log, t);
    } else if t.otc.None? {
      OtcFailedLegal(log);
      assert ReportLog(log, Fold(log).nextStatus, t) == Then(log, OtcFailed);
    } else {
      ReportSucceedsLegal(log, t);
    }
  }

  lemma MatchedLegal(log: Log, s: State, t: Turn)
    requires AllLegal(log) && Fold(log).matched && Fold(log).failures <= 5
    requires s.queue == Fold(log).queue && s.channels == Fold(log).channels && s.nextStatus == Fold(log).nextStatus
    ensures AllLegal(MatchedLog(log, s, t))
  {
    var log1 := if s.queue.None? then Then(log, QueueRegistered(s.channels)) else log;
    assert AllLegal(log1);
    var log2 := if s.nextStatus.None? then Then(log1, InternetReported) else log1;
    assert AllLegal(log2);
    ReportLegal(log2, t);
  }

  lemma {:induction false} LegalMeansAtMostSix(log: Log)
    requires AllLegal(log)
    ensures Fold(log).failures <= 6
  {
    if log.Then? {
      LegalMeansAtMostSix(log.earlier);
    }
  }

  lemma TurnLegal(log: Log, t: Turn)
    requires AllLegal(log) && Possible(Fold(log), t)
    ensures AllLegal(TurnLog(log, t))
  {
    var s := Fold(log);
    LegalMeansAtMostSix(log);
    if s.session.None? {
      ConnectLegal(log, t);
    } else if s.failures <= 5 {
      var log1 := Then(log, Attempt);
      assert AllLegal(log1);
      if t.helloBuilt && t.helloSent && t.hello == Some(s.session.value.address) {
        var log2 := Then(log1, HelloMatched(t.hello.value));
        assert AllLegal(log2);
        MatchedLegal(log2, s, t);
      }
    }
  }

  /** In a run of any length, whatever the network does, every event is in order. */
  lemma {:induction false} RunLegal(turns: seq<Turn>)
    requires Run(turns)
    ensures AllLegal(RunLog(turns))
  {
    if turns != [] {
      RunLegal(turns[..|turns| - 1]);
      TurnLegal(RunLog(turns[..|turns| - 1]), turns[|turns| - 1]);
    }
  }

  lemma {:induction false} RunPrefix(turns: seq<Turn>, i: nat)
    requires Run(turns) && i < |turns|
    ensures Run(turns[..i]) && Possible(Fold(RunLog(turns[..i])), turns[i])
    ensures RunLog(turns[..i + 1]) == TurnLog(RunLog(turns[..i]), turns[i])
  {
    assert turns[..i + 1][..i] == turns[..i];
    if i == |turns| - 1 {
      assert turns[..i + 1] == turns;
    } else {
      RunPrefix(turns[..|turns| - 1], i);
      assert turns[..|turns| - 1][..i] == turns[..i];
    }
  }

  lemma {:induction false} LegalPrefix(p: Log, log: Log)
    requires AllLegal(log) && PrefixOf(p, log)
    ensures AllLegal(p)
  {
    if p != log {
      LegalPrefix(p, log.earlier);
    }
  }

  // ----- what that means for the events of a run

  predicate Resets(e: Event) {
    e.SessionStarted? || e.Awaiting?
  }

  /** The events after the last start of a session or completed handshake. */
  function SinceReset(log: Log): Log {
    match log
    case Empty => Empty
    case Then(earlier, e) => if Resets(e) then Empty else Then(SinceReset(earlier), e)
  }

  /** How many failures are among the events. */
  function FailureEvents(log: Log): nat {
    match log
    case Empty => 0
    case Then(earlier, e) => FailureEvents(earlier) + if IsFailure(e) then 1 else 0
  }

  /** The failures since the session began or last completed a handshake. */
  function FailuresSince(log: Log): nat {
    FailureEvents(SinceReset(log))
  }

  lemma {:induction false} FailuresCounted(log: Log)
    ensures Fold(log).failures == FailuresSince(log)
  {
    if log.Then? {
      FailuresCounted(log.earlier);
    }
  }

  /** At every moment of every run there have been at most six failures since the
      session began or last completed a handshake. */
  lemma AtMostSixFailures(turns: seq<Turn>, p: Log)
    requires Run(turns) && PrefixOf(p, RunLog(turns))
    ensures FailuresSince(p) <= 6
  {
    RunLegal(turns);
    LegalPrefix(p, RunLog(turns));
    LegalMeansAtMostSix(p);
    FailuresCounted(p);
  }

  /** An endpoint is removed only with exactly six failures, and then it is the one of
      the session that has failed. */
  lemma RemovalAfterSixFailures(turns: seq<Turn>, p: Log, host: string)
    requires Run(turns) && PrefixOf(Then(p, EndpointRemoved(host)), RunLog(turns))
    ensures FailuresSince(p) == 6
    ensures Fold(p).session.Some? && Fold(p).session.value.host == host
  {
    RunLegal(turns);
    LegalPrefix(Then(p, EndpointRemoved(host)), RunLog(turns));
    FailuresCounted(p);
  }

  function Length(log: Log): nat {
    match log
    case Empty => 0
    case Then(earlier, _) => Length(earlier) + 1
  }

  lemma ReportIsLonger(log: Log, nextStatus: Option<int>, t: Turn)
    ensures Length(ReportLog(log, nextStatus, t)) > Length(log)
  {
    if t.otc.Some? {
      var log1 := Then(log, OtcSucceeded(t.otc.value.at + t.otc.value.interval, t.otc.value.hosts));
      assert Length(Then(log1, CloudReported)) == Length(log) + 2;
    }
  }

  lemma AttemptIsLonger(log: Log, s: State, t: Turn)
    requires s.session.Some?
    ensures Length(AttemptLog(log, s, t)) > Length(log)
  {
    if t.helloBuilt && t.helloSent && t.hello == Some(s.session.value.address) {
      var log0 := Then(log, HelloMatched(t.hello.value));
      var log1 := if s.queue.None? then Then(log0, QueueRegistered(s.channels)) else log0;
      var log2 := if s.nextStatus.None? then Then(log1, InternetReported) else log1;
      assert Length(log2) >= Length(log1) >= Length(log0) > Length(log);
      ReportIsLonger(log2, s.nextStatus, t);
    }
  }

  /** With six failures, and only then, the next turn of a session removes its endpoint. */
  lemma SixFailuresRemove(turns: seq<Turn>, t: Turn)
    requires Run(turns) && Fold(RunLog(turns)).session.Some?
    ensures var log := RunLog(turns);
            TurnLog(log, t) == Then(log, EndpointRemoved(Fold(log).session.value.host)) <==> FailuresSince(log) == 6
  {
    RunLegal(turns);
    var log := RunLog(turns);
    FailuresCounted(log);
    LegalMeansAtMostSix(log);
    if Fold(log).failures <= 5 {
      AttemptIsLonger(Then(log, Attempt), Fold(log), t);
    }
  }

  /** A hello reply from this address is the latest thing that began or decided an
      attempt: no attempt or session has begun or ended since. */
  predicate HelloInAttempt(log: Log, address: string) {
    match log
    case Empty => false
    case Then(earlier, e) =>
      if e.HelloMatched? then e.address == address
      else !e.Attempt? && !e.SessionStarted? && !e.EndpointRemoved? && HelloInAttempt(earlier, address)
  }

  lemma {:induction false} MatchedReply(log: Log)
    requires AllLegal(log) && Fold(log).matched
    ensures Fold(log).session.Some? && HelloInAttempt(log, Fold(log).session.value.address)
  {
    if log.Then? && !log.event.HelloMatched? {
      MatchedReply(log.earlier);
    }
  }

  lemma ForwardingInOrder(p: Log, e: Event)
    requires AllLegal(Then(p, e)) && (e.Forwarded? || e.MessageNotSent?)
    ensures AllLegal(p) && Fold(p).matched && Fold(p).queue.Some? && Fold(p).failures == 0
  {
  }

  /** Every message that is forwarded to the cloud, or fails to be sent, follows a hello
      reply from the session's address in the same attempt and a completed handshake,
      and comes from the registered queue. */
  lemma ForwardedAfterHello(turns: seq<Turn>, p: Log, e: Event)
    requires Run(turns) && PrefixOf(Then(p, e), RunLog(turns)) && (e.Forwarded? || e.MessageNotSent?)
    ensures Fold(p).session.Some? && HelloInAttempt(p, Fold(p).session.value.address)
    ensures Fold(p).queue.Some? && FailuresSince(p) == 0
  {
    RunLegal(turns);
    LegalPrefix(Then(p, e), RunLog(turns));
    ForwardingInOrder(p, e);
    MatchedReply(p);
    FailuresCounted(p);
  }

  lemma FreshReply(log: Log)
    requires Fold(log).otcFresh
    ensures log.Then? && log.event.OtcSucceeded?
  {
    assert log.Then?;
  }

  lemma ReportedInOrder(p: Log)
    requires AllLegal(Then(p, CloudReported))
    ensures AllLegal(p) && Fold(p).matched && Fold(p).otcFresh
  {
  }

  /** That the cloud is connected is reported only right after a successful reply to the
      report upstream, and after a hello reply in the same attempt. */
  lemma CloudReportedAfterOtc(turns: seq<Turn>, p: Log)
    requires Run(turns) && PrefixOf(Then(p, CloudReported), RunLog(turns))
    ensures p.Then? && p.event.OtcSucceeded?
    ensures Fold(p).session.Some? && HelloInAttempt(p, Fold(p).session.value.address)
  {
    RunLegal(turns);
    LegalPrefix(Then(p, CloudReported), RunLog(turns));
    ReportedInOrder(p);
    FreshReply(p);
    MatchedReply(p);
  }

  // ----- which endpoints stay

  /** How often an endpoint has been removed. */
  function Removals(log: Log): nat {
    match log
    case Empty => 0
    case Then(earlier, e) => Removals(earlier) + if e.EndpointRemoved? then 1 else 0
  }

  /** `log` continues `from` within the same session. */
  predicate SameSession(from: Log, log: Log) {
    log == from ||
    (log.Then? && !log.event.SessionStarted? && !log.event.EndpointRemoved? && SameSession(from, log.earlier))
  }

  lemma {:induction false} SessionKept(from: Log, log: Log)
    requires SameSession(from, log)
    ensures Removals(log) == Removals(from) && Fold(log).session == Fold(from).session
  {
    if log != from {
      SessionKept(from, log.earlier);
    }
  }

  lemma {:induction false} SameSessionOn(from: Log, log: Log, more: Log)
    requires SameSession(from, log) && SameSession(log, more)
    ensures SameSession(from, more)
  {
    if more != log {
      SameSessionOn(from, log, more.earlier);
    }
  }

  lemma AwaitInSession(log: Log, t: Turn)
    ensures SameSession(log, AwaitLog(log, t))
    ensures Fold(AwaitLog(log, t)).failures <= 1
  {
    assert SameSession(log, Then(log, Awaiting));
  }

  lemma ReportInSession(log: Log, nextStatus: Option<int>, t: Turn)
    ensures SameSession(log, ReportLog(log, nextStatus, t))
    ensures t.otc.Some? ==> Fold(ReportLog(log, nextStatus, t)).failures <= 1
  {
    if !Due(nextStatus, t.now) {
      AwaitInSession(log, t);
      assert ReportLog(log, nextStatus, t) == AwaitLog(log, t);
    } else if t.otc.Some? {
      assert SameSession(log, ReportedLog(log, t).earlier);
      AwaitInSession(ReportedLog(log, t), t);
      SameSessionOn(log, ReportedLog(log, t), AwaitLog(ReportedLog(log, t), t));
      ReportedThenAwait(log, nextStatus, t);
    }
  }

  lemma MatchedInSession(log: Log, s: State, t: Turn)
    ensures SameSession(log, MatchedLog(log, s, t))
    ensures t.otc.Some? ==> Fold(MatchedLog(log, s, t)).failures <= 1
  {
    var log1 := if s.queue.None? then Then(log, QueueRegistered(s.channels)) else log;
    assert SameSession(log, log1);
    var log2 := if s.nextStatus.None? then Then(log1, InternetReported) else log1;
    assert SameSession(log, log2);
    ReportInSession(log2, s.nextStatus, t);
    SameSessionOn(log, log2, ReportLog(log2, s.nextStatus, t));
  }

  lemma AttemptInSession(log: Log, s: State, t: Turn)
    requires s.session.Some?
    ensures SameSession(log, AttemptLog(log, s, t))
  {
    if t.helloBuilt && t.helloSent && t.hello == Some(s.session.value.address) {
      var log1 := Then(log, HelloMatched(t.hello.value));
      assert SameSession(log, log1);
      MatchedInSession(log1, s, t);
      SameSessionOn(log, log1, MatchedLog(log1, s, t));
    }
  }

  lemma TurnInSession(log: Log, t: Turn)
    requires Fold(log).session.Some? && Fold(log).failures <= 5
    ensures SameSession(log, TurnLog(log, t))
  {
    assert SameSession(log, Then(log, Attempt));
    AttemptInSession(Then(log, Attempt), Fold(log), t);
    SameSessionOn(log, Then(log, Attempt), TurnLog(log, t));
  }

  lemma OneMoreTurn(turns: seq<Turn>, more: seq<Turn>)
    requires more != []
    ensures var init, t := more[..|more| - 1], more[|more| - 1];
            RunLog(turns + more) == TurnLog(RunLog(turns + init), t) && (Run(turns + more) ==> Run(turns + init))
  {
    assert (turns + more)[..|turns + more| - 1] == turns + more[..|more| - 1];
  }

  lemma ConnectRemovesNone(log: Log, endpoints: set<string>, t: Turn)
    ensures Removals(ConnectLog(log, endpoints, t)) == Removals(log)
  {
    var log1 := Then(log, QueueForgotten);
    assert Removals(log1) == Removals(log);
    if endpoints == {} && t.lookup.Some? {
      assert Removals(Then(log1, LookedUp(t.lookup.value))) == Removals(log);
    }
  }

  /** A turn removes an endpoint only in a session with more than five failures. */
  lemma TurnRemoves(log: Log, t: Turn)
    ensures Removals(TurnLog(log, t))
         == Removals(log) + if Fold(log).session.Some? && Fold(log).failures > 5 then 1 else 0
  {
    if Fold(log).session.None? {
      ConnectRemovesNone(log, Fold(log).endpoints, t);
    } else if Fold(log).failures <= 5 {
      TurnInSession(log, t);
      SessionKept(log, TurnLog(log, t));
    }
  }

  lemma {:induction false} RemovalsGrow(turns: seq<Turn>, more: seq<Turn>)
    ensures Removals(RunLog(turns + more)) >= Removals(RunLog(turns))
  {
    if more == [] {
      assert turns + more == turns;
    } else {
      var init := more[..|more| - 1];
      RemovalsGrow(turns, init);
      OneMoreTurn(turns, more);
      TurnRemoves(RunLog(turns + init), more[|more| - 1]);
    }
  }

  /** No turn of `more` begins with six failures. */
  predicate NeverSix(turns: seq<Turn>, more: seq<Turn>) {
    more == [] ||
    (NeverSix(turns, more[..|more| - 1]) && FailuresSince(RunLog(turns + more[..|more| - 1])) != 6)
  }

  /** From within a session, a run of any length removes no endpoint and stays in the
      session if and only if none of its turns begins with six failures since the last
      completed handshake. */
  lemma {:induction false} EndpointStaysExactly(turns: seq<Turn>, more: seq<Turn>)
    requires Run(turns + more) && Fold(RunLog(turns)).session.Some?
    ensures Removals(RunLog(turns + more)) == Removals(RunLog(turns)) <==> NeverSix(turns, more)
    ensures NeverSix(turns, more) ==> Fold(RunLog(turns + more)).session == Fold(RunLog(turns)).session
  {
    if more == [] {
      assert turns + more == turns;
    } else {
      var init, t := more[..|more| - 1], more[|more| - 1];
      OneMoreTurn(turns, more);
      var log := RunLog(turns + init);
      EndpointStaysExactly(turns, init);
      RunLegal(turns + init);
      LegalMeansAtMostSix(log);
      FailuresCounted(log);
      RemovalsGrow(turns, init);
      TurnRemoves(log, t);
      if NeverSix(turns, more) {
        TurnInSession(log, t);
        SessionKept(log, TurnLog(log, t));
      }
    }
  }

  /** A reply comes in time, from another address or before a report upstream that does
      not fail. Nothing is said about messages. */
  predicate Tolerated(t: Turn, address: string) {
    t.helloBuilt && t.helloSent && t.hello.Some? && (t.hello.value != address || t.otc.Some?)
  }

  lemma ToleratedTurn(log: Log, t: Turn)
    requires Fold(log).session.Some? && Fold(log).failures <= 5 && Tolerated(t, Fold(log).session.value.address)
    ensures Fold(TurnLog(log, t)).failures <= 5 && Fold(TurnLog(log, t)).session == Fold(log).session
  {
    var s, log1 := Fold(log), Then(log, Attempt);
    TurnInSession(log, t);
    SessionKept(log, TurnLog(log, t));
    assert Fold(log1).failures == s.failures;
    if t.hello.value == s.session.value.address {
      MatchedInSession(Then(log1, HelloMatched(t.hello.value)), s, t);
    }
  }

  predicate AllTolerated(more: seq<Turn>, address: string) {
    forall i :: 0 <= i < |more| ==> Tolerated(more[i], address)
  }

  /** So an endpoint that only replies stays for ever, though every reply may come from
      another address and every message may fail to be sent. */
  lemma {:induction false} RepliesKeepEndpoint(turns: seq<Turn>, more: seq<Turn>)
    requires Run(turns + more) && Fold(RunLog(turns)).session.Some? && FailuresSince(RunLog(turns)) <= 5
    requires AllTolerated(more, Fold(RunLog(turns)).session.value.address)
    ensures Fold(RunLog(turns + more)).session == Fold(RunLog(turns)).session
    ensures FailuresSince(RunLog(turns + more)) <= 5
  {
    FailuresCounted(RunLog(turns + more));
    if more == [] {
      assert turns + more == turns;
    } else {
      var init := more[..|more| - 1];
      OneMoreTurn(turns, more);
      RepliesKeepEndpoint(turns, init);
      FailuresCounted(RunLog(turns + init));
      ToleratedTurn(RunLog(turns + init), more[|more| - 1]);
    }
  }
}
