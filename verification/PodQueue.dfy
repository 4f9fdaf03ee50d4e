/** Retrying with a bound: handleErr of pkg/kubernetes/pods_controller.go on the rate
    limited queue that counts the requeues of each key. */
module PodQueue {
  const MAX_REQUEUES := 5

  /** One key has been processed, with an error or without. */
  datatype Handled = Handled(key: string, failed: bool)

  type Counters = map<string, nat>

  function Requeues(c: Counters, key: string): nat {
    if key in c then c[key] else 0
  }

  /** The key is put back into the queue rather than forgotten. */
  predicate Retries(c: Counters, h: Handled) {
    h.failed && Requeues(c, h.key) < MAX_REQUEUES
  }

  function Handle(c: Counters, h: Handled): Counters {
    if Retries(c, h) then c[h.key := Requeues(c, h.key) + 1] else c - {h.key}
  }

  /** The counters after the keys of a history have been processed. */
  function CountersAfter(history: seq<Handled>): Counters {
    if history == [] then map[] else Handle(CountersAfter(history[..|history| - 1]), history[|history| - 1])
  }

  /** How often a key has failed since it was last processed without an error. */
  function Failures(history: seq<Handled>, key: string): nat {
    if history == [] then 0
    else
      var h := history[|history| - 1];
      if h.key != key then Failures(history[..|history| - 1], key)
      else if !h.failed then 0
      else Failures(history[..|history| - 1], key) + 1
  }

  /** In every run the counter of a key is the number of its failures since its last
      success, modulo six, whatever happens to other keys in between. */
  lemma {:induction false} CounterIsFailuresModuloSix(history: seq<Handled>, key: string)
    ensures Requeues(CountersAfter(history), key) == Failures(history, key) % 6
  {
    if history != [] {
      CounterIsFailuresModuloSix(history[..|history| - 1], key);
    }
  }

  lemma AtMostFive(history: seq<Handled>, key: string)
    ensures Requeues(CountersAfter(history), key) <= MAX_REQUEUES
  {
    CounterIsFailuresModuloSix(history, key);
  }

  /** A failed key is dropped rather than retried exactly at every sixth failure since its
      last success. */
  lemma DroppedAtEverySixthFailure(history: seq<Handled>, key: string)
    ensures !Retries(CountersAfter(history), Handled(key, true))
       <==> Failures(history + [Handled(key, true)], key) % 6 == 0
  {
    CounterIsFailuresModuloSix(history, key);
    assert (history + [Handled(key, true)])[..|history|] == history;
  }

  /** The rate limited additions of a key since it was last forgotten. */
  function ReAdded(history: seq<Handled>, key: string): nat {
    if history == [] then 0
    else
      var init, h := history[..|history| - 1], history[|history| - 1];
      if h.key != key then ReAdded(init, key)
      else if Retries(CountersAfter(init), h) then ReAdded(init, key) + 1
      else 0
  }

  /** Between two times that a key is forgotten it is re-added at most five times, and the
      counter is the number of times. */
  lemma AtMostFiveReAdded(history: seq<Handled>, key: string)
    ensures ReAdded(history, key) == Requeues(CountersAfter(history), key) <= MAX_REQUEUES
  {
    AtMostFive(history, key);
    if history != [] {
      AtMostFiveReAdded(history[..|history| - 1], key);
    }
  }

  /** All rate limited additions of a history, in order. */
  function ReAddedKeys(history: seq<Handled>): seq<string> {
    if history == [] then []
    else
      var init, h := history[..|history| - 1], history[|history| - 1];
      ReAddedKeys(init) + if Retries(CountersAfter(init), h) then [h.key] else []
  }

  class RateLimitedQueue {
    var requeues: Counters
    var waiting: seq<string>

    constructor ()
      ensures requeues == map[] && waiting == []
    {
      requeues, waiting := map[], [];
    }

    method NumRequeues(key: string) returns (n: nat)
      ensures n == Requeues(requeues, key)
    {
      if key in requeues {
        return requeues[key];
      }
      return 0;
    }

    method AddRateLimited(key: string)
      modifies this
      ensures requeues == old(requeues)[key := Requeues(old(requeues), key) + 1]
      ensures waiting == old(waiting) + [key]
    {
      var n := NumRequeues(key);
      requeues := requeues[key := n + 1];
      waiting := waiting + [key];
    }

    method Forget(key: string)
      modifies this
      ensures requeues == old(requeues) - {key} && waiting == old(waiting)
    {
      requeues := requeues - {key};
    }

    /** Retries after an error, up to five times; then gives up. */
    method HandleErr(failed: bool, key: string)
      modifies this
      ensures requeues == Handle(old(requeues), Handled(key, failed))
      ensures waiting == old(waiting) + if Retries(old(requeues), Handled(key, failed)) then [key] else []
    {
      if !failed {
        Forget(key);
        return;
      }
      var n := NumRequeues(key);
      if n < 5 {
        AddRateLimited(key);
        return;
      }
      Forget(key);
    }
  }

  /** The worker loop over any number of keys. */
  method Work(queue: RateLimitedQueue, history: seq<Handled>)
    requires queue.requeues == map[] && queue.waiting == []
    modifies queue
    ensures queue.requeues == CountersAfter(history) && queue.waiting == ReAddedKeys(history)
  {
    for i := 0 to |history|
      invariant queue.requeues == CountersAfter(history[..i]) && queue.waiting == ReAddedKeys(history[..i])
    {
      assert history[..i + 1][..i] == history[..i];
      queue.HandleErr(history[i].failed, history[i].key);
    }
    assert history[..|history|] == history;
  }
}
