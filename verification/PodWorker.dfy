/** The worker of pkg/kubernetes/pods_controller.go on the fields that it and its runners
    change in place. Each of the small methods is a stretch of code between two points where
    another goroutine can run; `SendNotify` and `ProcessNextItem` put them together. */
module PodWorker {
  import opened Options
  import opened PodQueue
  import opened PodController

  /** Whether processing a key is an error; `timed` tells that the select falls on the timer. */
  predicate Fails(l: Lookup, timed: bool, answers: seq<bool>) {
    l.LookupFailed? || (StartsRunner(l) && (timed || !AllTrue(answers)))
  }

  /** How many commands have returned by the time that the worker stops waiting. */
  function Returned(timer: Option<nat>, answers: seq<bool>): (n: nat)
    ensures n <= |answers|
  {
    if timer.Some? && timer.value < Stop(answers, 0) then timer.value else Stop(answers, 0)
  }

  lemma Started(start: State, first: Action)
    requires Enabled(start, first)
    ensures After(start, [first]) == Some(Apply(start, first))
  {
    OneMoreAction(start, [], first);
    assert [] + [first] == [first];
  }

  /** The attempt that processing a key adds: its commands, the results that have come in
      and what has become of the wait. After a timeout the runner may go on with the rest. */
  function NewAttempt(key: string, l: Lookup, timer: Option<nat>, answers: seq<bool>): seq<Attempt> {
    if StartsRunner(l) then
      [Attempt(key, CommandsOf(l.containers), answers[..Returned(timer, answers)],
               if timer.Some? then TimedOut else Received)]
    else []
  }

  function NewWrite(attempt: nat, l: Lookup, timer: Option<nat>, answers: seq<bool>): seq<Write> {
    if StartsRunner(l) && timer.None? then [Write(attempt, if AllTrue(answers) then Succeeded else Failed)] else []
  }

  /** The results of the attempt that processing a key adds: the first answers, none after a
      failure. Without the timer the runner is done; with it either as many commands have
      returned as the timer waits for, or the runner was done before. */
  lemma ResultsExactly(key: string, l: Lookup, timer: Option<nat>, answers: seq<bool>)
    requires StartsRunner(l) && |answers| == |l.containers|
    ensures var t := NewAttempt(key, l, timer, answers)[0];
            && t.results <= answers && InOrder(t)
            && (timer.None? ==> SignalOf(t) == Some(AllTrue(answers)) && t.select.Received?)
            && (timer.Some? ==> t.select.TimedOut? && |t.results| <= timer.value
                                && (|t.results| == timer.value || SignalOf(t).Some?))
  {
    SignalAtStop(answers);
  }

  class Controller {
    const queue: RateLimitedQueue
    var attempts: seq<Attempt>
    var worker: Option<nat>
    var writes: seq<Write>
    ghost var history: seq<Handled>

    ghost function Now(): State
      reads this
    {
      State(attempts, worker, writes, history)
    }

    /** The queue has counted and re-added what the history says. */
    ghost predicate Valid()
      reads this, queue
    {
      Inv(Now()) && queue.requeues == CountersAfter(history) && queue.waiting == ReAddedKeys(history)
    }

    constructor (queue: RateLimitedQueue)
      requires queue.requeues == map[] && queue.waiting == []
      ensures Valid() && this.queue == queue && Now() == INITIAL
    {
      this.queue := queue;
      attempts, worker, writes, history := [], None, [], [];
    }

    /** sendNotify up to its select: whether there is an error, or nothing when a runner
        has been started. */
    method Begin(key: string, l: Lookup) returns (failed: Option<bool>)
      requires Valid() && worker.None?
      modifies this
      ensures Valid() && Now() == Move(old(Now()), Process(key, l))
      ensures failed == if StartsRunner(l) then None else Some(l.LookupFailed?)
    {
      StepKeepsInv(Now(), Process(key, l));
      if l.LookupFailed? {
        return Some(true);
      }
      if l.Deleted? || l.mirrored {
        return Some(false);
      }
      if l.phase == Pending {
        worker := Some(|attempts|);
        attempts := attempts + [Attempt(key, CommandsOf(l.containers), [], Waiting)];
        return None;
      }
      return Some(false);
    }

    /** A runner's command returns; the runner sends the next one or signals. */
    method Return(i: nat, ok: bool)
      requires Valid() && Enabled(Now(), CommandReturns(i, ok))
      modifies this`attempts
      ensures Valid() && Now() == Apply(old(Now()), CommandReturns(i, ok))
    {
      StepKeepsInv(Now(), CommandReturns(i, ok));
      attempts := attempts[i := attempts[i].(results := attempts[i].results + [ok])];
    }

    /** The select falls on the timer. The runner is not stopped. */
    method Expire() returns (failed: bool)
      requires Valid() && Enabled(Now(), TimeOut)
      modifies this
      ensures Valid() && Now() == Move(old(Now()), TimeOut) && failed
    {
      StepKeepsInv(Now(), TimeOut);
      var i := worker.value;
      attempts := attempts[i := attempts[i].(select := TimedOut)];
      worker := None;
      return true;
    }

    /** The select falls on the runner's signal. */
    method Finish() returns (failed: bool)
      requires Valid() && Enabled(Now(), Receive)
      modifies this
      ensures Valid() && Now() == Move(old(Now()), Receive)
      ensures failed == HandledBy(old(Now()), Receive).value.failed
    {
      StepKeepsInv(Now(), Receive);
      var i := worker.value;
      var result := SignalOf(attempts[i]);
      attempts := attempts[i := attempts[i].(select := Received)];
      worker := None;
      writes := writes + [Write(i, if result == Some(true) then Succeeded else Failed)];
      return result != Some(true);
    }

    /** handleErr, which ends the processing of a key. */
    method HandleErr(failed: bool, key: string)
      requires Valid()
      modifies this`history, queue
      ensures Valid() && Now() == old(Now()).(history := old(history) + [Handled(key, failed)])
      ensures queue.waiting == old(queue.waiting)
                               + if Retries(old(queue.requeues), Handled(key, failed)) then [key] else []
    {
      queue.HandleErr(failed, key);
      history := history + [Handled(key, failed)];
      assert history[..|history| - 1] == old(history);
    }

    /** The runner that the worker waits for goes on until `n` of its commands have
        returned. */
    method RunUntil(n: nat, answers: seq<bool>) returns (ghost steps: seq<Action>)
      requires Valid() && worker.Some? && n <= Stop(answers, 0)
      requires attempts[worker.value].results == [] && |attempts[worker.value].commands| == |answers|
      modifies this`attempts
      ensures Valid() && After(old(Now()), steps) == Some(Now())
      ensures attempts == old(attempts)[worker.value := old(attempts[worker.value]).(results := answers[..n])]
    {
      steps := [];
      var i := worker.value;
      for k := 0 to n
        invariant Valid() && After(old(Now()), steps) == Some(Now())
        invariant attempts == old(attempts)[i := old(attempts[i]).(results := answers[..k])]
      {
        assert answers[..k + 1] == answers[..k] + [answers[k]];
        NoSignalBeforeStop(answers, k);
        OneMoreAction(old(Now()), steps, CommandReturns(i, answers[k]));
        steps := steps + [CommandReturns(i, answers[k])];
        Return(i, answers[k]);
      }
    }

    /** The select falls on the timer or on the signal. */
    method EndWait(timed: bool) returns (failed: bool, ghost a: Action)
      requires Valid() && Enabled(Now(), if timed then TimeOut else Receive)
      modifies this
      ensures a == if timed then TimeOut else Receive
      ensures Valid() && Now() == Move(old(Now()), a) && failed == HandledBy(old(Now()), a).value.failed
    {
      a := if timed then TimeOut else Receive;
      if timed {
        failed := Expire();
      } else {
        failed := Finish();
      }
    }

    /** The rest of sendNotify once a runner has been started. */
    method Attend(timer: Option<nat>, answers: seq<bool>) returns (failed: bool, ghost steps: seq<Action>)
      requires Valid() && worker.Some?
      requires attempts[worker.value].results == [] && |attempts[worker.value].commands| == |answers|
      modifies this
      ensures Valid() && worker.None? && history == old(history)
      ensures failed <==> timer.Some? || !AllTrue(answers)
      ensures attempts == old(attempts)[old(worker.value) := old(attempts[worker.value]).(
                results := answers[..Returned(timer, answers)], select := if timer.Some? then TimedOut else Received)]
      ensures writes == old(writes) + if timer.Some? then []
                                      else [Write(old(worker.value), if AllTrue(answers) then Succeeded else Failed)]
      ensures After(old(Now()), steps)
           == Some(Now().(history := history + [Handled(old(attempts[worker.value].key), failed)]))
    {
      ghost var begun, i := Now(), worker.value;
      steps := RunUntil(Returned(timer, answers), answers);
      SignalAtStop(answers);
      assert SignalOf(attempts[i]) == Signal(|answers|, answers[..Returned(timer, answers)]);
      ghost var a := if timer.Some? then TimeOut else Receive;
      OneMoreAction(begun, steps, a);
      failed, a := EndWait(timer.Some?);
      steps := steps + [a];
    }

    /** Processes a key while no other runner moves. `timer` is the number of commands after
        whose return the timer goes off, unless the runner is done by then: with a runner
        that is done either may come first. The steps are those of the machine, but for the
        entry in the history, which is made when the error is handled. */
    method SendNotify(key: string, l: Lookup, timer: Option<nat>, answers: seq<bool>)
      returns (failed: bool, ghost steps: seq<Action>)
      requires Valid() && worker.None? && (l.Found? ==> |answers| == |l.containers|)
      modifies this
      ensures Valid() && worker.None? && history == old(history)
      ensures failed <==> Fails(l, timer.Some?, answers)
      ensures After(old(Now()), steps) == Some(Now().(history := history + [Handled(key, failed)]))
      ensures attempts == old(attempts) + NewAttempt(key, l, timer, answers)
      ensures writes == old(writes) + NewWrite(|old(attempts)|, l, timer, answers)
    {
      ghost var start := Now();
      Started(start, Process(key, l));
      var early := Begin(key, l);
      if early.Some? {
        return early.value, [Process(key, l)];
      }
      ghost var more;
      failed, more := Attend(timer, answers);
      Continued(start, [Process(key, l)], more);
      steps := [Process(key, l)] + more;
    }

    method ProcessNextItem(key: string, l: Lookup, timer: Option<nat>, answers: seq<bool>)
      returns (ghost steps: seq<Action>)
      requires Valid() && worker.None? && (l.Found? ==> |answers| == |l.containers|)
      modifies this, queue
      ensures Valid() && worker.None? && After(old(Now()), steps) == Some(Now())
      ensures history == old(history) + [Handled(key, Fails(l, timer.Some?, answers))]
      ensures queue.waiting == old(queue.waiting) +
                if Retries(old(queue.requeues), Handled(key, Fails(l, timer.Some?, answers))) then [key] else []
      ensures attempts == old(attempts) + NewAttempt(key, l, timer, answers)
      ensures writes == old(writes) + NewWrite(|old(attempts)|, l, timer, answers)
    {
      var failed;
      failed, steps := SendNotify(key, l, timer, answers);
      HandleErr(failed, key);
    }

    /** One step of the machine. */
    method Step(a: Action)
      requires Valid() && Enabled(Now(), a)
      modifies this, queue
      ensures Valid() && Now() == Apply(old(Now()), a)
    {
      match a
      case Process(key, l) =>
        var early := Begin(key, l);
        if early.Some? {
          HandleErr(early.value, key);
        }
      case CommandReturns(i, ok) => Return(i, ok);
      case TimeOut =>
        var key := attempts[worker.value].key;
        var failed := Expire();
        HandleErr(failed, key);
      case Receive =>
        var key := attempts[worker.value].key;
        var failed := Finish();
        HandleErr(failed, key);
    }
  }

  /** Any run, in any interleaving: the counters of the queue are those of the history, and
      with them hold the bounds on requeues and on runners. */
  method RunSteps(c: Controller, actions: seq<Action>)
    requires c.Valid() && c.Now() == INITIAL && Run(actions)
    modifies c, c.queue
    ensures c.Valid() && c.Now() == Final(actions)
    ensures forall key :: StartedSince(actions, key) + FailedLookupsSince(actions, key)
                       == Requeues(c.queue.requeues, key) + Busy(c.Now(), key)
  {
    for i := 0 to |actions|
      invariant c.Valid() && After(INITIAL, actions[..i]) == Some(c.Now())
    {
      assert actions[..i + 1][..i] == actions[..i];
      RunPrefix(actions, i + 1);
      c.Step(actions[i]);
    }
    assert actions[..|actions|] == actions;
    forall key
      ensures StartedSince(actions, key) + FailedLookupsSince(actions, key)
           == Requeues(c.queue.requeues, key) + Busy(c.Now(), key)
    {
      RunnersAreRequeues(actions, key);
    }
  }
}
