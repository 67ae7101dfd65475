/** internal/server/rate_limit_scheduler.go: who may monitor an endpoint. Starting and
    cleaning up are the scheduler's two locked sections; monitors run freely in between. */
module Scheduler {
  import opened Prelude

  type MonitorId = nat

  class RateLimitScheduler {
    /** Keys under monitoring, and per key the monitor its cancel function belongs to. */
    var activeMonitoring: set<string>
    var cancelFuncs: map<string, MonitorId>
    var nextId: MonitorId

    /** The monitors that have been started and have not cleaned up yet. */
    ghost var running: map<MonitorId, string>

    /** Exactly the monitored keys have a monitor, each one only, and it is the one its cancel
        function reaches. */
    ghost predicate Valid()
      reads this
    {
      && cancelFuncs.Keys == activeMonitoring
      && (forall id :: id in running ==> id < nextId && running[id] in cancelFuncs && cancelFuncs[running[id]] == id)
      && (forall key :: key in cancelFuncs ==> cancelFuncs[key] in running && running[cancelFuncs[key]] == key)
    }

    constructor ()
      ensures Valid() && running == map[]
    {
      activeMonitoring, cancelFuncs, nextId, running := {}, map[], 0, map[];
    }

    /** A second start for the same endpoint spawns nothing. */
    method StartMonitoring(chain: string, endpointID: string) returns (spawned: Option<MonitorId>)
      requires Valid()
      modifies this
      ensures Valid()
      ensures spawned.Some? <==> forall id :: id in old(running) ==> old(running)[id] != chain + ":" + endpointID
      ensures match spawned
        case None => running == old(running)
        case Some(id) => id !in old(running) && running == old(running)[id := chain + ":" + endpointID]
    {
      var key := chain + ":" + endpointID;
      if key in activeMonitoring {
        assert running[cancelFuncs[key]] == key;
        return None;
      }
      activeMonitoring := activeMonitoring + {key};
      cancelFuncs := cancelFuncs[key := nextId];
      running := running[nextId := key];
      spawned := Some(nextId);
      nextId := nextId + 1;
    }

    /** A monitor's deferred cleanup, whatever made it leave its loop. */
    method CleanUp(id: MonitorId, key: string)
      requires Valid() && id in running && running[id] == key
      modifies this
      ensures Valid() && running == old(running) - {id}
    {
      activeMonitoring := activeMonitoring - {key};
      cancelFuncs := cancelFuncs - {key};
      running := running - {id};
    }

    /** At any time at most one monitor serves an endpoint. */
    lemma OneMonitorPerEndpoint(a: MonitorId, b: MonitorId)
      requires Valid() && a in running && b in running && running[a] == running[b]
      ensures a == b
    {
      assert cancelFuncs[running[a]] == a;
    }
  }
}
