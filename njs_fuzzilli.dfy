/** The edge-guard runtime of njs_fuzzilli.c, the REPRL harness of the njs target. It is
    its own copy of the SanitizerCoverage callbacks, with its own globals `__edges_start`,
    `__edges_stop` and `__shmem`, modelled as the fields of `CoverageRuntime`. */
module NjsFuzzilli {
  import opened Wrappers
  import opened EdgeGuards

  /** How `__sanitizer_cov_trace_pc_guard_init` ends: it returns early, it stops the process
      with `_exit(status)`, or it sets the runtime up. */
  datatype InitOutcome = Skipped | Exited(status: int) | Initialized

  class CoverageRuntime {
    const guards: array<uint32>
    var edgesStart: Option<nat>
    var edgesStop: Option<nat>
    var shmem: ShmemData?

    /** The recorded range is either absent (both NULL) or a range of guard slots, and the
        coverage region is memory apart from the guard section. */
    ghost predicate Valid()
      reads this
    {
      && (edgesStart.None? <==> edgesStop.None?)
      && (edgesStart.Some? ==> edgesStart.value <= edgesStop.value <= guards.Length)
      && (shmem != null ==> (shmem.edges as object) != guards)
    }

    constructor (guards: array<uint32>)
      ensures Valid()
      ensures this.guards == guards && edgesStart == None && edgesStop == None && shmem == null
    {
      this.guards := guards;
      edgesStart := None;
      edgesStop := None;
      shmem := null;
    }

    function ShmemEdges(): set<object>
      reads this
    {
      if shmem == null then {} else {shmem.edges}
    }

    /** `__sanitizer_cov_trace_pc_guard`: a zero guard is left alone; otherwise its value
        selects the bitmap bit to set, and the guard is cleared so the edge is recorded once.
        The C code writes `edges[index / 8]` unchecked: the caller must ensure it is in bounds. */
    method TracePcGuard(guard: nat)
      requires Valid()
      requires guard < guards.Length
      requires guards[guard] != 0 ==> shmem != null && InBitmap(shmem.edges[..], guards[guard])
      modifies guards, ShmemEdges()
      ensures old(guards[guard]) == 0 ==> guards[..] == old(guards[..])
      ensures old(guards[guard]) == 0 && shmem != null ==> shmem.edges[..] == old(shmem.edges[..])
      ensures old(guards[guard]) != 0 ==>
        && guards[..] == old(guards[..])[guard := 0]
        && shmem.edges[..] == Traced(old(shmem.edges[..]), old(guards[guard]))
    {
      var index := guards[guard];
      if index == 0 {
        return;
      }
      shmem.edges[index / 8] := shmem.edges[index / 8] | Bit(index % 8);
      assert shmem.edges[..] == Traced(old(shmem.edges[..]), index);
      guards[guard] := 0;
    }

    /** `__sanitizer_cov_trace_pc_guard_init`, on a coverage region `region` of SHM_SIZE
        bytes (the allocation or the mapped shared memory). */
    method TracePcGuardInit(start: nat, stop: nat, region: ShmemData) returns (outcome: InitOutcome)
      requires Valid()
      requires start <= stop <= guards.Length
      requires region.edges.Length == EDGES_LENGTH && (region.edges as object) != guards
      modifies this, guards, region
      ensures Valid()
      ensures region.edges[..] == old(region.edges[..])
      ensures (start == stop || old(guards[start]) != 0) ==>
        && outcome == Skipped
        && edgesStart == old(edgesStart) && edgesStop == old(edgesStop) && shmem == old(shmem)
        && guards[..] == old(guards[..]) && region.numEdges == old(region.numEdges)
      ensures start != stop && old(guards[start]) == 0 && (old(edgesStart).Some? || old(edgesStop).Some?) ==>
        && outcome == Exited(-1)
        && edgesStart == old(edgesStart) && edgesStop == old(edgesStop) && shmem == old(shmem)
        && guards[..] == old(guards[..]) && region.numEdges == old(region.numEdges)
      ensures start != stop && old(guards[start]) == 0 && old(edgesStart).None? && old(edgesStop).None? ==>
        && outcome == Initialized
        && edgesStart == Some(start) && edgesStop == Some(stop) && shmem == region
        && guards[..] == Renumbered(old(guards[..]), start, stop, MAX_EDGES)
        && region.numEdges == (stop - start) % 0x1_0000_0000
    {
      if start == stop || guards[start] != 0 {
        return Skipped;
      }
      if edgesStart != None || edgesStop != None {
        return Exited(-1);
      }
      edgesStart := Some(start);
      edgesStop := Some(stop);
      shmem := region;
      ResetEdgeguards();
      region.numEdges := (stop - start) % 0x1_0000_0000;
      outcome := Initialized;
    }

    /** `__sanitizer_cov_reset_edgeguards`: number the recorded range 1, 2, ... up to
        MAX_EDGES guards; with no recorded range (NULL pointers) the loop does not run. */
    method ResetEdgeguards()
      requires Valid()
      modifies guards
      ensures guards[..] ==
        if edgesStart.Some? then Renumbered(old(guards[..]), edgesStart.value, edgesStop.value, MAX_EDGES)
        else old(guards[..])
    {
      if edgesStart.None? {
        return;
      }
      var start, stop := edgesStart.value, edgesStop.value;
      var n: nat := 0;
      var x := start;
      while x < stop && n < MAX_EDGES
        invariant start <= x <= stop
        invariant n == x - start <= MAX_EDGES
        invariant forall k :: 0 <= k < guards.Length ==>
          guards[k] == if start <= k < x then k - start + 1 else old(guards[k])
      {
        n := n + 1;
        guards[x] := n;
        x := x + 1;
      }
      ghost var want := Renumbered(old(guards[..]), start, stop, MAX_EDGES);
      forall k | 0 <= k < guards.Length
        ensures guards[..][k] == want[k]
      {
        RenumberedValues(old(guards[..]), start, stop, MAX_EDGES, k);
      }
    }
  }
}
