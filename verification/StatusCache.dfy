/** The cached status object of pkg/kubernetes/vacuum_status.go, against an API server
    that only this client writes to and whose calls may fail, with or without having
    taken effect. */
module StatusCache {
  import opened Options

  /** What the server stores; it numbers the writes and refuses an update of a version
      that is not the stored one. */
  datatype Stored<S> = Stored(version: nat, status: S)

  datatype Outcome = Done | FailsBefore | FailsAfter

  /** The two API calls that one call may make: a read and then a write. */
  datatype Weather = Weather(get: Outcome, write: Outcome)

  // ----- the specification, on values

  datatype View<S> = View(server: Option<Stored<S>>, cached: Option<Stored<S>>)

  datatype Report<S> = Report(view: View<S>, ok: bool)

  /** The cache is empty or agrees with the server. */
  predicate Agrees<S(==)>(view: View<S>) {
    view.cached.Some? ==> view.cached == view.server
  }

  function Create<S>(status: S, write: Outcome): Report<S> {
    var created := Some(Stored(0, status));
    match write
    case Done => Report(View(created, created), true)
    case FailsBefore => Report(View(None, None), false)
    case FailsAfter => Report(View(created, None), false)
  }

  /** An update of the object that the client holds as `v`. The server refuses it unless
      it is of the stored version. */
  function Send<S>(server: Option<Stored<S>>, v: Stored<S>, status: S, write: Outcome): Report<S> {
    if server.None? || server.value.version != v.version then Report(View(server, None), false)
    else
      var written := Some(Stored(v.version + 1, status));
      match write
      case Done => Report(View(written, written), true)
      case FailsBefore => Report(View(server, None), false)
      case FailsAfter => Report(View(written, None), false)
  }

  /** The client compares with the object that it holds, not with what the server has. */
  function Compare<S(==)>(server: Option<Stored<S>>, v: Stored<S>, status: S, write: Outcome): Report<S> {
    if v.status == status then Report(View(server, Some(v)), true) else Send(server, v, status, write)
  }

  function Update<S(==)>(view: View<S>, status: S, w: Weather): Report<S> {
    if view.cached.Some? then Compare(view.server, view.cached.value, status, w.write)
    else if w.get != Done then Report(view, false)
    else if view.server.None? then Create(status, w.write)
    else Compare(view.server, view.server.value, status, w.write)
  }

  // ----- what holds over runs, whatever the server holds at the start

  datatype Call<S> = Call(status: S, weather: Weather)

  function After<S(==)>(start: Option<Stored<S>>, calls: seq<Call<S>>): Report<S> {
    if calls == [] then Report(View(start, None), false)
    else
      var c := calls[|calls| - 1];
      Update(After(start, calls[..|calls| - 1]).view, c.status, c.weather)
  }

  /** In every run the cache is empty or agrees with the server between the calls; a call
      that reports no error leaves exactly its status on the server. */
  lemma {:induction false} CacheAgrees<S>(start: Option<Stored<S>>, calls: seq<Call<S>>)
    ensures Agrees(After(start, calls).view)
    ensures After(start, calls).ok ==>
              var view := After(start, calls).view;
              view.cached == view.server && view.server.Some? && view.server.value.status == calls[|calls| - 1].status
    ensures !After(start, calls).ok ==> After(start, calls).view.cached.None?
  {
    if calls != [] {
      CacheAgrees(start, calls[..|calls| - 1]);
    }
  }

  /** The statuses that the server may hold: that of the last call without an error, or
      else the one at the start, and those of the calls since. */
  function Candidates<S(==)>(start: Option<Stored<S>>, calls: seq<Call<S>>): set<S> {
    if calls == [] then if start.Some? then {start.value.status} else {}
    else
      var latest := {calls[|calls| - 1].status};
      if After(start, calls).ok then latest else Candidates(start, calls[..|calls| - 1]) + latest
  }

  /** Failed calls leave the server with a status that was passed to one of them or to the
      last call without an error, and never with an older one. */
  lemma {:induction false} NothingOlder<S>(start: Option<Stored<S>>, calls: seq<Call<S>>)
    ensures var server := After(start, calls).view.server;
            server.Some? ==> server.value.status in Candidates(start, calls)
  {
    if calls != [] {
      NothingOlder(start, calls[..|calls| - 1]);
      CacheAgrees(start, calls);
    }
  }

  /** In every run a call writes at most once: it creates the object where there is none,
      and updates it only when its status is another one. */
  lemma OneWriteAtMost<S>(start: Option<Stored<S>>, calls: seq<Call<S>>)
    requires calls != []
    ensures var before := After(start, calls[..|calls| - 1]).view.server;
            var after, status := After(start, calls).view.server, calls[|calls| - 1].status;
            || after == before
            || (before.None? && after == Some(Stored(0, status)))
            || (before.Some? && before.value.status != status
                && after == Some(Stored(before.value.version + 1, status)))
  {
    CacheAgrees(start, calls[..|calls| - 1]);
  }

  /** In every run, when a call reports an error: when its read fails and nothing is cached,
      and when a write is needed and fails. */
  lemma ErrorExactly<S>(start: Option<Stored<S>>, calls: seq<Call<S>>)
    requires calls != []
    ensures var before := After(start, calls[..|calls| - 1]).view;
            var w, status := calls[|calls| - 1].weather, calls[|calls| - 1].status;
            var same := before.server.Some? && before.server.value.status == status;
            (!After(start, calls).ok <==> (before.cached.None? && w.get != Done) || (!same && w.write != Done))
  {
    CacheAgrees(start, calls[..|calls| - 1]);
  }

  /** In every run, what the server holds after a call: its status when one was needed and
      the write took effect, whether or not that became known, and else what it held. */
  lemma ServerExactly<S>(start: Option<Stored<S>>, calls: seq<Call<S>>)
    requires calls != []
    ensures var before := After(start, calls[..|calls| - 1]).view;
            var w, status := calls[|calls| - 1].weather, calls[|calls| - 1].status;
            var same := before.server.Some? && before.server.value.status == status;
            var after := After(start, calls).view.server;
            if !same && (before.cached.Some? || w.get == Done) && w.write != FailsBefore
            then after.Some? && after.value.status == status
            else after == before.server
  {
    CacheAgrees(start, calls[..|calls| - 1]);
  }

  /** After a call has reported no error, the same status again makes no call of the API
      and so cannot fail. */
  lemma Settled<S>(start: Option<Stored<S>>, calls: seq<Call<S>>, again: Call<S>)
    requires calls != [] && After(start, calls).ok && again.status == calls[|calls| - 1].status
    ensures After(start, calls + [again]) == After(start, calls)
  {
    CacheAgrees(start, calls);
    assert (calls + [again])[..|calls|] == calls;
  }

  /** However the calls before failed, a call whose own API calls succeed reports no
      error: the server never refuses its update as one of a stale version. */
  lemma RecoversAtOnce<S>(start: Option<Stored<S>>, calls: seq<Call<S>>, status: S)
    ensures After(start, calls + [Call(status, Weather(Done, Done))]).ok
  {
    CacheAgrees(start, calls);
    assert (calls + [Call(status, Weather(Done, Done))])[..|calls|] == calls;
  }

  // ----- the program

  class Vacuum<S(==)> {
    var version: nat
    var status: S

    constructor (version: nat, status: S)
      ensures this.version == version && this.status == status
    {
      this.version, this.status := version, status;
    }
  }

  datatype Found<S> = Found(v: Vacuum<S>) | NotFound | Error

  class Server<S(==)> {
    var stored: Option<Stored<S>>

    constructor ()
      ensures stored == None
    {
      stored := None;
    }

    method Get(outcome: Outcome) returns (r: Found<S>)
      ensures r.Error? <==> outcome != Done
      ensures r.NotFound? <==> outcome == Done && stored.None?
      ensures r.Found? ==> fresh(r.v) && stored == Some(Stored(r.v.version, r.v.status))
    {
      if outcome != Done {
        return Error;
      }
      if stored.None? {
        return NotFound;
      }
      var v := new Vacuum(stored.value.version, stored.value.status);
      return Found(v);
    }

    /** Answers a write with a new object, or with an error, or loses the answer. */
    method Store(written: Stored<S>, outcome: Outcome) returns (r: Found<S>)
      modifies this
      ensures stored == if outcome == FailsBefore then old(stored) else Some(written)
      ensures if outcome == Done then
                r.Found? && fresh(r.v) && r.v.version == written.version && r.v.status == written.status
              else r == Error
    {
      if outcome == FailsBefore {
        return Error;
      }
      stored := Some(written);
      if outcome == FailsAfter {
        return Error;
      }
      var v := new Vacuum(written.version, written.status);
      return Found(v);
    }

    method Create(v: Vacuum<S>, outcome: Outcome) returns (r: Found<S>)
      modifies this
      ensures old(stored.Some?) ==> r == Error && stored == old(stored)
      ensures old(stored.None?) ==>
                && stored == (if outcome == FailsBefore then None else Some(Stored(0, v.status)))
                && if outcome == Done then r.Found? && fresh(r.v) && r.v.version == 0 && r.v.status == v.status
                   else r == Error
    {
      if stored.Some? {
        return Error;
      }
      r := Store(Stored(0, v.status), outcome);
    }

    /** An update of a stale version is refused. */
    method Update(v: Vacuum<S>, outcome: Outcome) returns (r: Found<S>)
      modifies this
      ensures old(stored.None? || stored.value.version != v.version) ==> r == Error && stored == old(stored)
      ensures old(stored.Some? && stored.value.version == v.version) ==>
                && stored == (if outcome == FailsBefore then old(stored) else Some(Stored(v.version + 1, v.status)))
                && if outcome == Done then
                     r.Found? && fresh(r.v) && r.v.version == v.version + 1 && r.v.status == v.status
                   else r == Error
    {
      if stored.None? || stored.value.version != v.version {
        return Error;
      }
      r := Store(Stored(v.version + 1, v.status), outcome);
    }
  }

  class Kubernetes<S(==)> {
    const client: Server<S>
    var vacuumObj: Vacuum?<S>

    function State(): View<S>
      reads this, client, vacuumObj
    {
      View(client.stored, if vacuumObj == null then None else Some(Stored(vacuumObj.version, vacuumObj.status)))
    }

    ghost predicate Valid()
      reads this, client, vacuumObj
    {
      Agrees(State())
    }

    constructor (client: Server<S>)
      ensures this.client == client && vacuumObj == null && Valid()
    {
      this.client := client;
      vacuumObj := null;
    }

    /** The cached object is changed before the update is sent; when the update fails the
        cache is emptied. */
    method TryUpdateVacuumStatus(status: S, w: Weather) returns (ok: bool)
      modifies this, client, vacuumObj
      ensures old(Valid()) ==> Valid()
      ensures vacuumObj != null ==> fresh(vacuumObj) || vacuumObj == old(vacuumObj)
      ensures Report(State(), ok) == Update(old(State()), status, w)
    {
      var v := vacuumObj;
      if v == null {
        var found := client.Get(w.get);
        match found
        case NotFound =>
          var created := new Vacuum(0, status);
          var answer := client.Create(created, w.write);
          if answer.Found? {
            vacuumObj := answer.v;
          }
          return answer.Found?;
        case Error =>
          return false;
        case Found(o) =>
          v := o;
      }
      if status == v.status {
        vacuumObj := v;
        return true;
      }
      v.status := status;
      var updated := client.Update(v, w.write);
      if updated.Found? {
        vacuumObj := updated.v;
      } else {
        vacuumObj := null;
      }
      return updated.Found?;
    }
  }

  /** Any number of calls, starting with an empty cache. */
  method RunCalls<S(==)>(k: Kubernetes<S>, calls: seq<Call<S>>) returns (ok: bool)
    requires k.vacuumObj == null
    modifies k, k.client
    ensures Report(k.State(), ok) == After(old(k.client.stored), calls)
    ensures k.Valid()
  {
    ok := false;
    for i := 0 to |calls|
      invariant Report(k.State(), ok) == After(old(k.client.stored), calls[..i])
      invariant k.vacuumObj != null ==> fresh(k.vacuumObj)
    {
      CacheAgrees(old(k.client.stored), calls[..i]);
      assert calls[..i + 1][..i] == calls[..i];
      ok := k.TryUpdateVacuumStatus(calls[i].status, calls[i].weather);
    }
    assert calls[..|calls|] == calls;
    CacheAgrees(old(k.client.stored), calls);
  }
}
