/** The edge-guard runtime of njs_fuzzilli_module.c, the njs module build. Initialisation
    and reset are those of the other two copies; the trace callback first masks the guard
    value with EDGE_COUNTER_MASK and also counts hits per edge.

    EDGE_COUNTER_MASK is defined outside the modelled files, so it is the field
    `edgeCounterMask`; the `hit_count` array of `struct coverage_data` is the array
    `hitCounts`, kept apart from the bitmap. */
module NjsFuzzilliModule {
  import opened Wrappers
  import opened EdgeGuards

  /** How `__sanitizer_cov_trace_pc_guard_init` ends: it returns early, it stops the process
      with `_exit(status)`, or it sets the runtime up. */
  datatype InitOutcome = Skipped | Exited(status: int) | Initialized

  class CoverageRuntime {
    const guards: array<uint32>
    var edgesStart: Option<nat>
    var edgesStop: Option<nat>
    var shmem: ShmemData?
    const edgeCounterMask: uint32
    const hitCounts: array<nat>

    /** The recorded range is either absent (both NULL) or a range of guard slots, and the
        coverage region is memory apart from the guard section. */
    ghost predicate Valid()
      reads this
    {
      && (edgesStart.None? <==> edgesStop.None?)
      && (edgesStart.Some? ==> edgesStart.value <= edgesStop.value <= guards.Length)
      && (shmem != null ==> (shmem.edges as object) != guards)
      && (hitCounts as object) != guards
      && (shmem != null ==> (shmem.edges as object) != hitCounts)
    }

    constructor (guards: array<uint32>, edgeCounterMask: uint32, hitCounts: array<nat>)
      requires (hitCounts as object) != guards
      ensures Valid()
      ensures this.guards == guards && edgesStart == None && edgesStop == None && shmem == null
      ensures this.edgeCounterMask == edgeCounterMask && this.hitCounts == hitCounts
    {
      this.guards := guards;
      this.edgeCounterMask := edgeCounterMask;
      this.hitCounts := hitCounts;
      edgesStart := None;
      edgesStop := None;
      shmem := null;
    }

    function ShmemEdges(): set<object>
      reads this
    {
      if shmem == null then {} else {shmem.edges}
    }

    /** `__sanitizer_cov_trace_pc_guard`: a zero guard is left alone; otherwise the guard
        value masked with EDGE_COUNTER_MASK selects both the bitmap bit to set and the hit
        counter to increment, and the guard is cleared. Neither write is bounds-checked in C. */
    method TracePcGuard(guard: nat)
      requires Valid()
      requires guard < guards.Length
      requires guards[guard] != 0 ==>
        && shmem != null
        && InBitmap(shmem.edges[..], And(guards[guard], edgeCounterMask))
        && And(guards[guard], edgeCounterMask) < hitCounts.Length
      modifies guards, ShmemEdges(), hitCounts
      ensures old(guards[guard]) == 0 ==> guards[..] == old(guards[..]) && hitCounts[..] == old(hitCounts[..])
      ensures old(guards[guard]) == 0 && shmem != null ==> shmem.edges[..] == old(shmem.edges[..])
      ensures old(guards[guard]) != 0 ==>
        var index := And(old(guards[guard]), edgeCounterMask);
        && guards[..] == old(guards[..])[guard := 0]
        && shmem.edges[..] == Traced(old(shmem.edges[..]), index)
        && hitCounts[..] == old(hitCounts[..])[index := old(hitCounts[index]) + 1]
    {
      var index: uint32 := guards[guard];
      if index == 0 {
        return;
      }
      index := And(index, edgeCounterMask);
      shmem.edges[index / 8] := shmem.edges[index / 8] | Bit(index % 8);
      assert shmem.edges[..] == Traced(old(shmem.edges[..]), index);
      hitCounts[index] := hitCounts[index] + 1;
      guards[guard] := 0;
    }

    /** `__sanitizer_cov_trace_pc_guard_init`, on a coverage region `region` of SHM_SIZE
        bytes (the allocation or the mapped shared memory). */
    method TracePcGuardInit(start: nat, stop: nat, region: ShmemData) returns (outcome: InitOutcome)
      requires Valid()
      requires start <= stop <= guards.Length
      requires region.edges.Length == EDGES_LENGTH && (region.edges as object) != guards
      requires (region.edges as object) != hitCounts
      modifies this, guards, region
      ensures Valid()
      ensures region.edges[..] == old(region.edges[..])
      ensures (start == stop || old(guards[start]) != 0) ==>
        && outcome == Skipped
        && edgesStart == old(edgesStart) && edgesStop == old(edgesStop) && shmem == old(shmem)
        && guards[..] == old(guards[..]) && region.numEdges == old(region.numEdges)
      ensures start != stop && old(guards[start]) == 0 && (old(edgesStart).Some? || old(edgesStop).Some?) ==>
        && outcome == Exited(-1)
        && edgesStart == old(edgesStart) && edgesStop == old(edgesStop) && shmem == old(shmem)
        && guards[..] == old(guards[..]) && region.numEdges == old(region.numEdges)
      ensures start != stop && old(guards[start]) == 0 && old(edgesStart).None? && old(edgesStop).None? ==>
        && outcome == Initialized
        && edgesStart == Some(start) && edgesStop == Some(stop) && shmem == region
        && guards[..] == Renumbered(old(guards[..]), start, stop, MAX_EDGES)
        && region.numEdges == (stop - start) % 0x1_0000_0000
    {
      if start == stop || guards[start] != 0 {
        return Skipped;
      }
      if edgesStart != None || edgesStop != None {
        return Exited(-1);
      }
      edgesStart := Some(start);
      edgesStop := Some(stop);
      shmem := region;
      ResetEdgeguards();
      region.numEdges := (stop - start) % 0x1_0000_0000;
      outcome := Initialized;
    }

    /** `__sanitizer_cov_reset_edgeguards`: number the recorded range 1, 2, ... up to
        MAX_EDGES guards; with no recorded range (NULL pointers) the loop does not run. */
    method ResetEdgeguards()
      requires Valid()
      modifies guards
      ensures guards[..] ==
        if edgesStart.Some? then Renumbered(old(guards[..]), edgesStart.value, edgesStop.value, MAX_EDGES)
        else old(guards[..])
    {
      if edgesStart.None? {
        return;
      }
      var start, stop := edgesStart.value, edgesStop.value;
      var n: nat := 0;
      var x := start;
      while x < stop && n < MAX_EDGES
        invariant start <= x <= stop
        invariant n == x - start <= MAX_EDGES
        invariant forall k :: 0 <= k < guards.Length ==>
          guards[k] == if start <= k < x then k - start + 1 else old(guards[k])
      {
        n := n + 1;
        guards[x] := n;
        x := x + 1;
      }
      ghost var want := Renumbered(old(guards[..]), start, stop, MAX_EDGES);
      forall k | 0 <= k < guards.Length
        ensures guards[..][k] == want[k]
      {
        RenumberedValues(old(guards[..]), start, stop, MAX_EDGES, k);
      }
    }
  }
}
