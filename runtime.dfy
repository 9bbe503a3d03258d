/**
 * `WorkflowRuntime`: start times of named events ("workflow", "cmd_3"), kept
 * only when runtime reporting is enabled. The wall clock is an abstract
 * integer clock: each operation is handed the reading it would take.
 */
module Runtime {
  import opened Wrappers

  class WorkflowRuntime {
    /** `_report_runtime`, fixed at construction. */
    const reportRuntime: bool
    /** `_runtimes`: the last tracked start of each event. */
    var runtimes: map<string, int>

    /** With reporting disabled nothing is ever recorded. */
    ghost predicate Valid()
      reads this
    {
      !reportRuntime ==> runtimes == map[]
    }

    constructor (reportRuntime: bool)
      ensures Valid()
      ensures this.reportRuntime == reportRuntime && runtimes == map[]
    {
      this.reportRuntime := reportRuntime;
      runtimes := map[];
    }

    /** `track(thing)`: records, or overwrites, the start of `thing` only when reporting is enabled. */
    method Track(thing: string, now: int)
      requires Valid()
      modifies this
      ensures Valid()
      ensures runtimes == if reportRuntime then old(runtimes)[thing := now] else old(runtimes)
    {
      if reportRuntime {
        runtimes := runtimes[thing := now];
      }
    }

    /**
     * `report(thing)`: the time elapsed since the last start of `thing`, or
     * `None` (Python's `False`) for an event never tracked, which with
     * reporting disabled is every event.
     */
    function Report(thing: string, now: int): (r: Option<int>)
      reads this
      ensures r.Some? <==> thing in runtimes
      ensures r.Some? ==> r.value == now - runtimes[thing]
      ensures Valid() && !reportRuntime ==> r == None
    {
      if thing in runtimes then Some(now - runtimes[thing]) else None
    }
  }

  /** Tracking `thing` and reporting it later measures the time between the two readings; other events are untouched. */
  method TrackThenReport(rt: WorkflowRuntime, thing: string, start: int, end: int) returns (r: Option<int>)
    requires rt.Valid()
    modifies rt
    ensures rt.Valid()
    ensures r == if rt.reportRuntime then Some(end - start) else None
    ensures forall other :: other != thing ==> rt.Report(other, end) == old(rt.Report(other, end))
  {
    rt.Track(thing, start);
    r := rt.Report(thing, end);
  }
}
