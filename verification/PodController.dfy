/** sendNotify of pkg/kubernetes/pods_controller.go: the commands of a pod run one after
    the other beside the worker, which waits for their result or for a timer. */
module PodController {
  import opened Options
  import opened PodQueue

  datatype Container = Container(image: string, args: seq<string>)

  datatype Command = Command(verb: string, args: string)

  /** Only the first argument of a container is passed on. */
  function CommandOf(c: Container): Command {
    Command(c.image, if |c.args| < 1 then "" else c.args[0])
  }

  function CommandsOf(containers: seq<Container>): (r: seq<Command>)
    ensures |r| == |containers|
    ensures forall k :: 0 <= k < |r| ==>
              && r[k].verb == containers[k].image
              && r[k].args == if containers[k].args == [] then "" else containers[k].args[0]
  {
    seq(|containers|, i requires 0 <= i < |containers| => CommandOf(containers[i]))
  }

  /** What the runner of `n` commands signals after the given results, or nothing while it
      is still at work. */
  function Signal(n: nat, results: seq<bool>): Option<bool> {
    if results != [] && !results[|results| - 1] then Some(false)
    else if |results| >= n then Some(true)
    else None
  }

  predicate AllTrue(answers: seq<bool>) {
    forall k :: 0 <= k < |answers| ==> answers[k]
  }

  /** How many commands are sent when the robot answers like this: those up to the first
      failure, if there is one from `i` on. */
  function Stop(answers: seq<bool>, i: nat): (n: nat)
    requires i <= |answers|
    ensures i <= n <= |answers|
    ensures forall k :: i <= k < n - 1 ==> answers[k]
    ensures n < |answers| ==> i < n && !answers[n - 1]
    decreases |answers| - i
  {
    if i == |answers| then i
    else if !answers[i] then i + 1
    else Stop(answers, i + 1)
  }

  lemma NoSignalBeforeStop(answers: seq<bool>, k: nat)
    requires k < Stop(answers, 0)
    ensures Signal(|answers|, answers[..k]) == None
  {
    assert k > 0 ==> answers[..k][k - 1] == answers[k - 1];
  }

  /** The runner is at work until then, and signals then whether all have succeeded. */
  lemma SignalAtStop(answers: seq<bool>)
    ensures Signal(|answers|, answers[..Stop(answers, 0)]) == Some(AllTrue(answers))
  {
    var n := Stop(answers, 0);
    assert n > 0 ==> answers[..n][n - 1] == answers[n - 1];
  }

  /** The runner: sends the commands in order until one fails. `answers` are what the
      robot would answer to each. */
  method RunCommands(containers: seq<Container>, answers: seq<bool>) returns (sent: seq<Command>, done: bool)
    requires |answers| == |containers|
    ensures |sent| == Stop(answers, 0) && sent == CommandsOf(containers)[..|sent|]
    ensures forall k :: 0 <= k < |sent| ==>
              && sent[k].verb == containers[k].image
              && sent[k].args == if containers[k].args == [] then "" else containers[k].args[0]
    ensures done <==> AllTrue(answers)
    ensures Signal(|containers|, answers[..|sent|]) == Some(done)
    ensures forall k :: 0 <= k < |sent| ==> Signal(|containers|, answers[..k]) == None
  {
    sent := [];
    for i := 0 to |containers|
      invariant sent == CommandsOf(containers)[..i]
      invariant Stop(answers, i) == Stop(answers, 0)
      invariant forall k :: 0 <= k < i ==> answers[k]
    {
      sent := sent + [CommandOf(containers[i])];
      if !answers[i] {
        return sent, false;
      }
    }
    return sent, true;
  }

  // ----- the worker, the runners and the timer, in any order of their steps

  datatype PodPhase = Pending | Succeeded | Failed | OtherPhase

  datatype Lookup = LookupFailed | Deleted | Found(mirrored: bool, phase: PodPhase, containers: seq<Container>)

  datatype Select = Waiting | TimedOut | Received

  /** One start of a runner, with the results of its commands so far and what has become
      of the worker's wait for it. */
  datatype Attempt = Attempt(key: string, commands: seq<Command>, results: seq<bool>, select: Select)

  function SignalOf(t: Attempt): Option<bool> {
    Signal(|t.commands|, t.results)
  }

  /** A write of the pod's status on behalf of an attempt; errors of it are only logged. */
  datatype Write = Write(attempt: nat, phase: PodPhase)

  datatype State = State(
    attempts: seq<Attempt>,
    worker: Option<nat>,
    writes: seq<Write>,
    history: seq<Handled>)

  const INITIAL := State([], None, [], [])

  datatype Action =
    | Process(key: string, found: Lookup)
    | CommandReturns(attempt: nat, ok: bool)
    | TimeOut
    | Receive

  predicate StartsRunner(l: Lookup) {
    l.Found? && !l.mirrored && l.phase == Pending
  }

  predicate Enabled(s: State, a: Action) {
    match a
    case Process(_, _) => s.worker.None?
    case CommandReturns(i, _) => i < |s.attempts| && SignalOf(s.attempts[i]).None?
    case TimeOut => s.worker.Some? && s.worker.value < |s.attempts|
    case Receive =>
      s.worker.Some? && s.worker.value < |s.attempts| && SignalOf(s.attempts[s.worker.value]).Some?
  }

  /** The key that a step finishes processing, and whether with an error. */
  function HandledBy(s: State, a: Action): Option<Handled>
    requires Enabled(s, a)
  {
    match a
    case Process(key, l) => if StartsRunner(l) then None else Some(Handled(key, l.LookupFailed?))
    case CommandReturns(_, _) => None
    case TimeOut => Some(Handled(s.attempts[s.worker.value].key, true))
    case Receive =>
      var t := s.attempts[s.worker.value];
      Some(Handled(t.key, !SignalOf(t).value))
  }

  function Closed(s: State, select: Select): State
    requires s.worker.Some? && s.worker.value < |s.attempts|
  {
    var i := s.worker.value;
    s.(attempts := s.attempts[i := s.attempts[i].(select := select)], worker := None)
  }

  /** A step without what it adds to the history. */
  function Move(s: State, a: Action): State
    requires Enabled(s, a)
  {
    match a
    case Process(key, l) =>
      if StartsRunner(l) then
        s.(attempts := s.attempts + [Attempt(key, CommandsOf(l.containers), [], Waiting)],
           worker := Some(|s.attempts|))
      else s
    case CommandReturns(i, ok) =>
      s.(attempts := s.attempts[i := s.attempts[i].(results := s.attempts[i].results + [ok])])
    case TimeOut => Closed(s, TimedOut)
    case Receive =>
      var ok := SignalOf(s.attempts[s.worker.value]).value;
      Closed(s, Received).(writes := s.writes + [Write(s.worker.value, if ok then Succeeded else Failed)])
  }

  function Apply(s: State, a: Action): State
    requires Enabled(s, a)
  {
    var h := HandledBy(s, a);
    Move(s, a).(history := if h.Some? then s.history + [h.value] else s.history)
  }

  function TryApply(before: Option<State>, a: Action): Option<State> {
    if before.Some? && Enabled(before.value, a) then Some(Apply(before.value, a)) else None
  }

  /** The state after these steps from `s`, or nothing when one of them is not possible. */
  function After(s: State, actions: seq<Action>): Option<State> {
    if actions == [] then Some(s) else TryApply(After(s, actions[..|actions| - 1]), actions[|actions| - 1])
  }

  /** A run, in any interleaving. */
  predicate Run(actions: seq<Action>) {
    After(INITIAL, actions).Some?
  }

  function Final(actions: seq<Action>): State
    requires Run(actions)
  {
    After(INITIAL, actions).value
  }

  lemma AfterMore(s: State, actions: seq<Action>, a: Action)
    ensures After(s, actions + [a]) == TryApply(After(s, actions), a)
  {
    assert (actions + [a])[..|actions|] == actions;
  }

  lemma OneMoreAction(s: State, actions: seq<Action>, a: Action)
    requires After(s, actions).Some? && Enabled(After(s, actions).value, a)
    ensures After(s, actions + [a]) == Some(Apply(After(s, actions).value, a))
  {
    AfterMore(s, actions, a);
  }

  lemma {:induction false} Continued(s: State, first: seq<Action>, more: seq<Action>)
    requires After(s, first).Some?
    ensures After(s, first + more) == After(After(s, first).value, more)
  {
    if more == [] {
      assert first + more == first;
    } else {
      var init, a := more[..|more| - 1], more[|more| - 1];
      Continued(s, first, init);
      AfterMore(s, first + init, a);
      AfterMore(After(s, first).value, init, a);
      assert first + more == first + init + [a] && more == init + [a];
    }
  }

  lemma {:induction false} RunPrefix(actions: seq<Action>, i: nat)
    requires Run(actions) && i <= |actions|
    ensures Run(actions[..i])
    decreases |actions|
  {
    if i == |actions| {
      assert actions[..i] == actions;
    } else {
      RunPrefix(actions[..|actions| - 1], i);
      assert actions[..|actions| - 1][..i] == actions[..i];
    }
  }

  // ----- what every step keeps

  /** No result follows a failure, and there are no more results than commands. */
  predicate InOrder(t: Attempt) {
    |t.results| <= |t.commands| && forall k :: 0 <= k < |t.results| - 1 ==> t.results[k]
  }

  /** Nothing is received from a runner that is still at work. */
  predicate ReceivedFromFinished(t: Attempt) {
    t.select.Received? ==> SignalOf(t).Some?
  }

  /** The worker waits for its current attempt and for no other. */
  predicate WaitsForOne(s: State) {
    && (s.worker.Some? ==> s.worker.value < |s.attempts|)
    && forall i :: 0 <= i < |s.attempts| ==> (s.attempts[i].select.Waiting? <==> s.worker == Some(i))
  }

  /** The attempt that a write is for has had its result received, and the phase is the
      one for that result. */
  predicate Justified(s: State, w: Write) {
    && w.attempt < |s.attempts|
    && s.attempts[w.attempt].select.Received?
    && w.phase in {Succeeded, Failed}
    && SignalOf(s.attempts[w.attempt]) == Some(w.phase == Succeeded)
  }

  predicate Inv(s: State) {
    && (forall i :: 0 <= i < |s.attempts| ==> InOrder(s.attempts[i]) && ReceivedFromFinished(s.attempts[i]))
    && WaitsForOne(s)
    && (forall k :: 0 <= k < |s.writes| ==> Justified(s, s.writes[k]))
  }

  lemma ResultsStayInOrder(t: Attempt, ok: bool)
    requires InOrder(t) && SignalOf(t).None?
    ensures InOrder(t.(results := t.results + [ok]))
  {
    var r := t.results + [ok];
    assert forall k :: 0 <= k < |r| - 1 ==> r[k] == t.results[k];
  }

  lemma StepKeepsInv(s: State, a: Action)
    requires Inv(s) && Enabled(s, a)
    ensures Inv(Apply(s, a))
  {
    var s' := Apply(s, a);
    if a.CommandReturns? {
      ResultsStayInOrder(s.attempts[a.attempt], a.ok);
    }
    forall k | 0 <= k < |s'.writes|
      ensures Justified(s', s'.writes[k])
    {
      if k < |s.writes| {
        assert Justified(s, s.writes[k]);
      }
    }
  }

  lemma {:induction false} AfterKeepsInv(s: State, actions: seq<Action>)
    requires Inv(s) && After(s, actions).Some?
    ensures Inv(After(s, actions).value)
  {
    if actions != [] {
      AfterKeepsInv(s, actions[..|actions| - 1]);
      StepKeepsInv(After(s, actions[..|actions| - 1]).value, actions[|actions| - 1]);
    }
  }

  lemma RunInv(actions: seq<Action>)
    requires Run(actions)
    ensures Inv(Final(actions))
  {
    AfterKeepsInv(INITIAL, actions);
  }

  // ----- what holds in every run

  /** PodSucceeded is written only if every command of the attempt has succeeded. */
  lemma SucceededOnlyAfterAll(actions: seq<Action>, w: Write)
    requires Run(actions) && w in Final(actions).writes && w.phase == Succeeded
    ensures w.attempt < |Final(actions).attempts|
    ensures var t := Final(actions).attempts[w.attempt];
            |t.results| == |t.commands| && AllTrue(t.results)
  {
    RunInv(actions);
    assert Justified(Final(actions), w);
    assert InOrder(Final(actions).attempts[w.attempt]);
  }

  /** PodFailed is written only if a command has failed, and then every command before it
      has succeeded and none after it has run. */
  lemma FailedOnlyAfterFirstFailure(actions: seq<Action>, w: Write)
    requires Run(actions) && w in Final(actions).writes && w.phase == Failed
    ensures w.attempt < |Final(actions).attempts|
    ensures var t := Final(actions).attempts[w.attempt];
            0 < |t.results| <= |t.commands| && !t.results[|t.results| - 1] &&
            forall k :: 0 <= k < |t.results| - 1 ==> t.results[k]
  {
    RunInv(actions);
    assert Justified(Final(actions), w);
    assert InOrder(Final(actions).attempts[w.attempt]);
  }

  /** Nothing is written for an attempt that has timed out, even when its commands come to
      an end later. */
  lemma NothingOnTimeout(actions: seq<Action>, i: nat, phase: PodPhase)
    requires Run(actions) && i < |Final(actions).attempts| && Final(actions).attempts[i].select.TimedOut?
    ensures Write(i, phase) !in Final(actions).writes
  {
    RunInv(actions);
    assert Write(i, phase) in Final(actions).writes ==> Justified(Final(actions), Write(i, phase));
  }

  function WritesFor(writes: seq<Write>, i: nat): nat {
    if writes == [] then 0
    else WritesFor(writes[..|writes| - 1], i) + if writes[|writes| - 1].attempt == i then 1 else 0
  }

  lemma OneMoreWrite(writes: seq<Write>, w: Write, i: nat)
    ensures WritesFor(writes + [w], i) == WritesFor(writes, i) + if w.attempt == i then 1 else 0
  {
    assert (writes + [w])[..|writes|] == writes;
  }

  lemma OneWriteStep(s: State, a: Action, i: nat)
    requires WaitsForOne(s) && Enabled(s, a)
    requires WritesFor(s.writes, i) == if i < |s.attempts| && s.attempts[i].select.Received? then 1 else 0
    ensures var s' := Apply(s, a);
            WritesFor(s'.writes, i) == if i < |s'.attempts| && s'.attempts[i].select.Received? then 1 else 0
  {
    if a.Receive? {
      var ok := SignalOf(s.attempts[s.worker.value]).value;
      OneMoreWrite(s.writes, Write(s.worker.value, if ok then Succeeded else Failed), i);
    }
  }

  /** An attempt gets exactly one write when its result is received, and none otherwise. */
  lemma {:induction false} OneWriteWhenReceived(actions: seq<Action>, i: nat)
    requires Run(actions)
    ensures var s := Final(actions);
            WritesFor(s.writes, i) == if i < |s.attempts| && s.attempts[i].select.Received? then 1 else 0
  {
    if actions != [] {
      var init := actions[..|actions| - 1];
      OneWriteWhenReceived(init, i);
      RunInv(init);
      OneWriteStep(Final(init), actions[|actions| - 1], i);
    }
  }

  /** The worker has turned away from a runner that is still at work exactly when its
      attempt has timed out. */
  lemma OnlyTimedOutRunnersLinger(actions: seq<Action>, i: nat)
    requires Run(actions) && i < |Final(actions).attempts|
    requires SignalOf(Final(actions).attempts[i]).None?
    ensures Final(actions).worker != Some(i) <==> Final(actions).attempts[i].select.TimedOut?
  {
    RunInv(actions);
    var s := Final(actions);
    assert s.attempts[i].select.Waiting? <==> s.worker == Some(i);
    assert ReceivedFromFinished(s.attempts[i]);
  }

  /** The commands are those of the containers, in order: the image is the command, and the
      first argument, if there is one, its argument. */
  predicate CommandsAre(commands: seq<Command>, containers: seq<Container>) {
    && |commands| == |containers|
    && forall k :: 0 <= k < |commands| ==>
         && commands[k].verb == containers[k].image
         && commands[k].args == if containers[k].args == [] then "" else containers[k].args[0]
  }

  /** What processing a key does: it starts a runner if and only if it finds a pending pod
      that is not mirrored; otherwise the key is done, with an error if and only if the
      lookup failed. */
  lemma ProcessExactly(s: State, key: string, l: Lookup)
    requires s.worker.None?
    ensures var after := Apply(s, Process(key, l));
            if l.Found? && !l.mirrored && l.phase.Pending? then
              && |after.attempts| == |s.attempts| + 1 && after.attempts[..|s.attempts|] == s.attempts
              && (var t := after.attempts[|s.attempts|];
                  t.key == key && CommandsAre(t.commands, l.containers) && t.results == [] && t.select.Waiting?)
              && after.worker == Some(|s.attempts|) && after.history == s.history && after.writes == s.writes
            else after == s.(history := s.history + [Handled(key, l.LookupFailed?)])
  {
  }

  /** How an attempt ends: a timeout is an error of the key and writes nothing; a received
      result is written as the phase of the pod, and only a failure is an error. */
  lemma EndsExactly(s: State, a: Action)
    requires Inv(s) && Enabled(s, a) && (a.TimeOut? || a.Receive?)
    ensures var i, after := s.worker.value, Apply(s, a);
            var t, ok := s.attempts[i], AllTrue(s.attempts[i].results);
            && after.worker.None? && after.attempts == s.attempts[i := t.(select := after.attempts[i].select)]
            && (a.TimeOut? ==>
                  && after.attempts[i].select.TimedOut? && after.writes == s.writes
                  && after.history == s.history + [Handled(t.key, true)])
            && (a.Receive? ==>
                  && after.attempts[i].select.Received?
                  && after.writes == s.writes + [Write(i, if ok then Succeeded else Failed)]
                  && after.history == s.history + [Handled(t.key, !ok)])
  {
    assert InOrder(s.attempts[s.worker.value]);
  }

  lemma SameAttempt(s: State, a: Action, i: nat)
    requires Enabled(s, a) && i < |s.attempts|
    ensures i < |Apply(s, a).attempts|
    ensures Apply(s, a).attempts[i].key == s.attempts[i].key
    ensures Apply(s, a).attempts[i].commands == s.attempts[i].commands
  {
  }

  /** Every attempt goes back to a step that found its pod pending and not mirrored, and has
      the commands of that pod. */
  lemma {:induction false} AttemptHasOrigin(actions: seq<Action>, i: nat) returns (k: nat)
    requires Run(actions) && i < |Final(actions).attempts|
    ensures k < |actions| && actions[k].Process? && actions[k].key == Final(actions).attempts[i].key
    ensures var l := actions[k].found;
            && l.Found? && !l.mirrored && l.phase.Pending?
            && CommandsAre(Final(actions).attempts[i].commands, l.containers)
  {
    var init, a := actions[..|actions| - 1], actions[|actions| - 1];
    var s := Final(init);
    if i < |s.attempts| {
      k := AttemptHasOrigin(init, i);
      SameAttempt(s, a, i);
    } else {
      k := |actions| - 1;
    }
  }

  // ----- when a command can succeed twice for one pod

  /** Command `p` has succeeded in this attempt. */
  predicate HasSucceeded(t: Attempt, p: nat) {
    p < |t.results| && t.results[p]
  }

  /** Command `p` has succeeded in this attempt or may still do so: no command up to it
      has failed. */
  predicate CanSucceed(t: Attempt, p: nat) {
    p < |t.commands| && forall k :: 0 <= k < |t.results| && k <= p ==> t.results[k]
  }

  predicate HasSucceededFor(s: State, key: string, p: nat, i: int) {
    0 <= i < |s.attempts| && s.attempts[i].key == key && HasSucceeded(s.attempts[i], p)
  }

  predicate CanSucceedFor(s: State, key: string, p: nat, i: int) {
    0 <= i < |s.attempts| && s.attempts[i].key == key && CanSucceed(s.attempts[i], p)
  }

  /** Command `p` has succeeded in two attempts of the key. */
  ghost predicate SucceededTwice(s: State, key: string, p: nat) {
    exists i, j :: i != j && HasSucceededFor(s, key, p, i) && HasSucceededFor(s, key, p, j)
  }

  ghost predicate TwoCanSucceed(s: State, key: string, p: nat) {
    exists i, j :: i != j && CanSucceedFor(s, key, p, i) && CanSucceedFor(s, key, p, j)
  }

  /** The steps do not process the key again. */
  predicate LeavesAlone(actions: seq<Action>, key: string) {
    forall k :: 0 <= k < |actions| ==> !(actions[k].Process? && actions[k].key == key)
  }

  lemma SucceededCould(s: State, key: string, p: nat, i: int)
    requires Inv(s) && HasSucceededFor(s, key, p, i)
    ensures CanSucceedFor(s, key, p, i)
  {
    assert InOrder(s.attempts[i]);
  }

  lemma CouldBeforeStep(s: State, a: Action, key: string, p: nat, i: int)
    requires Enabled(s, a) && !(a.Process? && a.key == key) && CanSucceedFor(Apply(s, a), key, p, i)
    ensures CanSucceedFor(s, key, p, i)
  {
    if a.CommandReturns? && a.attempt == i {
      var r := s.attempts[i].results;
      assert forall k :: 0 <= k < |r| ==> (r + [a.ok])[k] == r[k];
    }
  }

  /** What can succeed later could succeed before, while the key is not processed again. */
  lemma {:induction false} CouldBefore(s: State, more: seq<Action>, key: string, p: nat, i: int)
    requires After(s, more).Some? && LeavesAlone(more, key)
    requires CanSucceedFor(After(s, more).value, key, p, i)
    ensures CanSucceedFor(s, key, p, i)
  {
    if more != [] {
      var init := more[..|more| - 1];
      CouldBeforeStep(After(s, init).value, more[|more| - 1], key, p, i);
      CouldBefore(s, init, key, p, i);
    }
  }

  /** The runner of attempt `i` moves on, and nothing else, until command `p` succeeds. */
  lemma {:induction false} LetSucceed(s: State, key: string, p: nat, i: nat) returns (more: seq<Action>)
    requires Inv(s) && CanSucceedFor(s, key, p, i)
    ensures forall k :: 0 <= k < |more| ==> more[k].CommandReturns?
    ensures After(s, more).Some? && Inv(After(s, more).value)
    ensures HasSucceededFor(After(s, more).value, key, p, i)
    ensures var s' := After(s, more).value;
            |s'.attempts| == |s.attempts| &&
            forall j :: 0 <= j < |s.attempts| && j != i ==> s'.attempts[j] == s.attempts[j]
    decreases p + 1 - |s.attempts[i].results|
  {
    var t := s.attempts[i];
    if p < |t.results| {
      more := [];
    } else {
      var a := CommandReturns(i, true);
      assert Enabled(s, a);
      StepKeepsInv(s, a);
      assert After(s, [a]) == Some(Apply(s, a)) by { OneMoreAction(s, [], a); assert [] + [a] == [a]; }
      var rest := LetSucceed(Apply(s, a), key, p, i);
      more := [a] + rest;
      Continued(s, [a], rest);
    }
  }

  lemma BothSucceed(s: State, key: string, p: nat, i: nat, j: nat) returns (more: seq<Action>)
    requires Inv(s) && i != j && CanSucceedFor(s, key, p, i) && CanSucceedFor(s, key, p, j)
    ensures LeavesAlone(more, key) && After(s, more).Some? && SucceededTwice(After(s, more).value, key, p)
  {
    var first := LetSucceed(s, key, p, i);
    var s' := After(s, first).value;
    var second := LetSucceed(s', key, p, j);
    more := first + second;
    Continued(s, first, second);
    assert HasSucceededFor(After(s, more).value, key, p, i) && HasSucceededFor(After(s, more).value, key, p, j);
  }

  lemma TwoCouldBefore(s: State, more: seq<Action>, key: string, p: nat)
    requires Inv(s) && LeavesAlone(more, key) && After(s, more).Some? && SucceededTwice(After(s, more).value, key, p)
    ensures TwoCanSucceed(s, key, p)
  {
    var s' := After(s, more).value;
    AfterKeepsInv(s, more);
    var i, j :| i != j && HasSucceededFor(s', key, p, i) && HasSucceededFor(s', key, p, j);
    SucceededCould(s', key, p, i);
    SucceededCould(s', key, p, j);
    CouldBefore(s, more, key, p, i);
    CouldBefore(s, more, key, p, j);
  }

  /** In every reachable state, and until the key is processed again, there is a way for
      command `p` to succeed in two attempts of the key exactly when two of its attempts
      have that command and no failure up to it. */
  lemma SucceedsTwiceExactly(s: State, key: string, p: nat)
    requires Inv(s)
    ensures (exists more :: LeavesAlone(more, key) && After(s, more).Some? &&
                            SucceededTwice(After(s, more).value, key, p))
       <==> TwoCanSucceed(s, key, p)
  {
    if TwoCanSucceed(s, key, p) {
      var i: nat, j: nat :| i != j && CanSucceedFor(s, key, p, i) && CanSucceedFor(s, key, p, j);
      var more := BothSucceed(s, key, p, i, j);
      assert LeavesAlone(more, key);
    }
    if more :| LeavesAlone(more, key) && After(s, more).Some? && SucceededTwice(After(s, more).value, key, p) {
      TwoCouldBefore(s, more, key, p);
    }
  }

  /** That can be told before a key is processed: starting a runner makes it possible
      exactly for the commands of the pod that can still succeed, or have succeeded, in an
      earlier attempt of the key. */
  lemma StartMakesItPossible(s: State, key: string, l: Lookup, p: nat)
    requires Inv(s) && s.worker.None? && StartsRunner(l)
    ensures TwoCanSucceed(Apply(s, Process(key, l)), key, p)
       <==> TwoCanSucceed(s, key, p) || (p < |l.containers| && exists i :: CanSucceedFor(s, key, p, i))
  {
    var s', n := Apply(s, Process(key, l)), |s.attempts|;
    assert forall i :: 0 <= i < n ==> s'.attempts[i] == s.attempts[i];
    assert forall i :: i != n ==> (CanSucceedFor(s', key, p, i) <==> CanSucceedFor(s, key, p, i));
    assert CanSucceedFor(s', key, p, n) <==> p < |l.containers|;
    if TwoCanSucceed(s', key, p) {
      var i, j :| i != j && CanSucceedFor(s', key, p, i) && CanSucceedFor(s', key, p, j);
      assert CanSucceedFor(s, key, p, if i == n then j else i);
    }
    if TwoCanSucceed(s, key, p) {
      var i, j :| i != j && CanSucceedFor(s, key, p, i) && CanSucceedFor(s, key, p, j);
      assert CanSucceedFor(s', key, p, i) && CanSucceedFor(s', key, p, j);
    }
    if i :| CanSucceedFor(s, key, p, i) {
      assert CanSucceedFor(s', key, p, i);
    }
  }

  /** How often a runner has been started for the key. */
  function Starts(actions: seq<Action>, key: string): nat {
    if actions == [] then 0
    else
      var a := actions[|actions| - 1];
      Starts(actions[..|actions| - 1], key) + if a.Process? && a.key == key && StartsRunner(a.found) then 1 else 0
  }

  lemma {:induction false} StartedBefore(actions: seq<Action>, key: string, i: nat)
    requires Run(actions) && i < |Final(actions).attempts| && Final(actions).attempts[i].key == key
    ensures Starts(actions, key) >= 1
  {
    var init := actions[..|actions| - 1];
    if i < |Final(init).attempts| {
      StartedBefore(init, key, i);
    }
  }

  /** With one start there is one attempt at most. */
  lemma {:induction false} OneAttemptPerStart(actions: seq<Action>, key: string, i: nat, j: nat)
    requires Run(actions) && i < j < |Final(actions).attempts|
    requires Final(actions).attempts[i].key == key && Final(actions).attempts[j].key == key
    ensures Starts(actions, key) >= 2
  {
    var init, a := actions[..|actions| - 1], actions[|actions| - 1];
    var s := Final(init);
    if j < |s.attempts| {
      OneAttemptPerStart(init, key, i, j);
    } else {
      StartedBefore(init, key, i);
    }
  }

  /** While a runner is started once at most for a key, no command of it succeeds twice. */
  lemma StartedOnceSucceedsOnce(actions: seq<Action>, key: string, p: nat)
    requires Run(actions) && Starts(actions, key) <= 1
    ensures !SucceededTwice(Final(actions), key, p)
  {
    if SucceededTwice(Final(actions), key, p) {
      var s := Final(actions);
      var i: nat, j: nat :| i != j && HasSucceededFor(s, key, p, i) && HasSucceededFor(s, key, p, j);
      OneAttemptPerStart(actions, key, if i < j then i else j, if i < j then j else i);
    }
  }

  lemma Step(actions: seq<Action>, a: Action, next: State)
    requires Run(actions) && Enabled(Final(actions), a) && Apply(Final(actions), a) == next
    ensures Run(actions + [a]) && Final(actions + [a]) == next
  {
    OneMoreAction(INITIAL, actions, a);
  }

  function PodOf(c: Container): Lookup {
    Found(false, Pending, [c])
  }

  lemma StartedOne(s: State, key: string, c: Container)
    requires s.worker.None?
    ensures Apply(s, Process(key, PodOf(c)))
         == s.(attempts := s.attempts + [Attempt(key, [CommandOf(c)], [], Waiting)], worker := Some(|s.attempts|))
  {
    assert CommandsOf([c]) == [CommandOf(c)];
  }

  lemma ReturnedOne(s: State, i: nat)
    requires i < |s.attempts| && s.attempts[i].results == [] && |s.attempts[i].commands| == 1
    ensures Enabled(s, CommandReturns(i, true))
    ensures Apply(s, CommandReturns(i, true)) == s.(attempts := s.attempts[i := s.attempts[i].(results := [true])])
  {
    assert [] + [true] == [true];
  }

  /** Two runners for the same command are at work. */
  lemma SecondRunner(key: string, c: Container) returns (actions: seq<Action>)
    ensures Run(actions)
    ensures var t := Attempt(key, [CommandOf(c)], [], TimedOut);
            Final(actions) == State([t, t.(select := Waiting)], Some(1), [], [Handled(key, true)])
  {
    var t := Attempt(key, [CommandOf(c)], [], TimedOut);
    var s0 := State([t.(select := Waiting)], Some(0), [], []);
    var s1 := State([t], None, [], [Handled(key, true)]);
    StartedOne(INITIAL, key, c);
    Step([], Process(key, PodOf(c)), s0);
    actions := [] + [Process(key, PodOf(c))];
    Step(actions, TimeOut, s1);
    actions := actions + [TimeOut];
    StartedOne(s1, key, c);
    Step(actions, Process(key, PodOf(c)), State([t, t.(select := Waiting)], Some(1), [], [Handled(key, true)]));
    actions := actions + [Process(key, PodOf(c))];
  }

  /** It happens after a timeout: the first runner goes on beside the second. */
  lemma CommandCanRunTwice(key: string, c: Container) returns (actions: seq<Action>)
    ensures Run(actions) && SucceededTwice(Final(actions), key, 0)
    ensures var t := Attempt(key, [CommandOf(c)], [true], TimedOut);
            Final(actions).attempts == [t, t.(select := Received)]
    ensures Final(actions).writes == [Write(1, Succeeded)]
  {
    var t := Attempt(key, [CommandOf(c)], [], TimedOut);
    var u := t.(results := [true]);
    var r := SecondRunner(key, c);
    ReturnedOne(Final(r), 0);
    Step(r, CommandReturns(0, true), State([u, t.(select := Waiting)], Some(1), [], [Handled(key, true)]));
    r := r + [CommandReturns(0, true)];
    ReturnedOne(Final(r), 1);
    Step(r, CommandReturns(1, true), State([u, u.(select := Waiting)], Some(1), [], [Handled(key, true)]));
    r := r + [CommandReturns(1, true)];
    var end := State([u, u.(select := Received)], None, [Write(1, Succeeded)],
                     [Handled(key, true), Handled(key, false)]);
    Step(r, Receive, end);
    actions := r + [Receive];
    assert HasSucceededFor(end, key, 0, 0) && HasSucceededFor(end, key, 0, 1);
  }

  /** The first attempt is over and its result is received. */
  lemma FirstSuccess(key: string, c: Container) returns (actions: seq<Action>)
    ensures Run(actions)
    ensures var u := Attempt(key, [CommandOf(c)], [true], Received);
            Final(actions) == State([u], None, [Write(0, Succeeded)], [Handled(key, false)])
  {
    var t := Attempt(key, [CommandOf(c)], [], Waiting);
    StartedOne(INITIAL, key, c);
    Step([], Process(key, PodOf(c)), State([t], Some(0), [], []));
    actions := [] + [Process(key, PodOf(c))];
    ReturnedOne(Final(actions), 0);
    Step(actions, CommandReturns(0, true), State([t.(results := [true])], Some(0), [], []));
    actions := actions + [CommandReturns(0, true)];
    var u := t.(results := [true], select := Received);
    Step(actions, Receive, State([u], None, [Write(0, Succeeded)], [Handled(key, false)]));
    actions := actions + [Receive];
  }

  /** And it happens without one: when the write of the status fails, which is only
      logged, the pod is found pending again. */
  lemma CommandCanRunTwiceInTime(key: string, c: Container) returns (actions: seq<Action>)
    ensures Run(actions) && SucceededTwice(Final(actions), key, 0)
    ensures var u := Attempt(key, [CommandOf(c)], [true], Received);
            Final(actions).attempts == [u, u]
    ensures Final(actions).writes == [Write(0, Succeeded), Write(1, Succeeded)]
  {
    var u, once := Attempt(key, [CommandOf(c)], [true], Received), [Handled(key, false)];
    var t := u.(results := [], select := Waiting);
    var r := FirstSuccess(key, c);
    StartedOne(Final(r), key, c);
    Step(r, Process(key, PodOf(c)), State([u, t], Some(1), [Write(0, Succeeded)], once));
    r := r + [Process(key, PodOf(c))];
    ReturnedOne(Final(r), 1);
    Step(r, CommandReturns(1, true), State([u, t.(results := [true])], Some(1), [Write(0, Succeeded)], once));
    r := r + [CommandReturns(1, true)];
    var end := State([u, u], None, [Write(0, Succeeded), Write(1, Succeeded)], once + once);
    Step(r, Receive, end);
    actions := r + [Receive];
    assert HasSucceededFor(end, key, 0, 0) && HasSucceededFor(end, key, 0, 1);
  }

  // ----- the retries and the runners together

  /** The runners started for the key since it was last forgotten. */
  function StartedSince(actions: seq<Action>, key: string): nat
    requires Run(actions)
  {
    if actions == [] then 0
    else
      var init, a := actions[..|actions| - 1], actions[|actions| - 1];
      var before, h := StartedSince(init, key), HandledBy(Final(init), a);
      if h.Some? then
        if h.value.key == key && !Retries(CountersAfter(Final(init).history), h.value) then 0 else before
      else if a.Process? && a.key == key then before + 1
      else before
  }

  /** The failed lookups of the key since it was last forgotten. */
  function FailedLookupsSince(actions: seq<Action>, key: string): nat
    requires Run(actions)
  {
    if actions == [] then 0
    else
      var init, a := actions[..|actions| - 1], actions[|actions| - 1];
      var before, h := FailedLookupsSince(init, key), HandledBy(Final(init), a);
      if h.Some? && h.value.key == key then
        if !Retries(CountersAfter(Final(init).history), h.value) then 0
        else if a.Process? then before + 1
        else before
      else before
  }

  /** The worker waits for a runner of the key. */
  function Busy(s: State, key: string): nat {
    if s.worker.Some? && s.worker.value < |s.attempts| && s.attempts[s.worker.value].key == key then 1 else 0
  }

  lemma BusyStep(s: State, a: Action, key: string)
    requires Inv(s) && Enabled(s, a)
    ensures var h := HandledBy(s, a);
            Busy(Apply(s, a), key) ==
            if h.Some? && !a.Process? && h.value.key == key then 0
            else if h.None? && a.Process? && a.key == key then Busy(s, key) + 1
            else Busy(s, key)
    ensures var h := HandledBy(s, a);
            h.Some? && h.value.key == key ==> Busy(s, key) == if a.Process? then 0 else 1
  {
  }

  lemma ReAddedStep(history: seq<Handled>, h: Handled, key: string)
    ensures ReAdded(history + [h], key)
         == if h.key != key then ReAdded(history, key)
            else if Retries(CountersAfter(history), h) then ReAdded(history, key) + 1
            else 0
  {
    assert (history + [h])[..|history|] == history;
  }

  /** In every interleaving the retry counter of a key accounts for its runners: those
      started since the key was last forgotten, and the lookups that failed, are as many as
      the requeues and the runner that is being waited for. */
  lemma {:induction false} RunnersAreRequeues(actions: seq<Action>, key: string)
    requires Run(actions)
    ensures StartedSince(actions, key) + FailedLookupsSince(actions, key)
         == Requeues(CountersAfter(Final(actions).history), key) + Busy(Final(actions), key)
  {
    AtMostFiveReAdded(Final(actions).history, key);
    if actions != [] {
      var init, a := actions[..|actions| - 1], actions[|actions| - 1];
      RunnersAreRequeues(init, key);
      RunInv(init);
      var s := Final(init);
      AtMostFiveReAdded(s.history, key);
      BusyStep(s, a, key);
      var h := HandledBy(s, a);
      if h.Some? {
        ReAddedStep(s.history, h.value, key);
      }
    }
  }

  /** So at most six runners are started for a key between two times that it is forgotten. */
  lemma AtMostSixRunners(actions: seq<Action>, key: string)
    requires Run(actions)
    ensures StartedSince(actions, key) <= MAX_REQUEUES + 1
  {
    RunnersAreRequeues(actions, key);
    AtMostFive(Final(actions).history, key);
  }
}
