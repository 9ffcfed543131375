/** What the three copies of the SanitizerCoverage edge-guard runtime (njs_coverage.c,
    njs_fuzzilli.c, njs_fuzzilli_module.c) share: the layout of the coverage region, the
    numbering `__sanitizer_cov_reset_edgeguards` writes into the guards, and the bit
    `__sanitizer_cov_trace_pc_guard` sets in the bitmap.

    Memory is modelled as one array of guard slots per runtime; a pointer into it is an index,
    and NULL is `None`. */
module EdgeGuards {
  import opened Wrappers

  type uint32 = x: int | 0 <= x < 0x1_0000_0000

  /** Size of the coverage region: a 4-byte edge count followed by the bitmap (njs_coverage.h). */
  const SHM_SIZE: nat := 0x100000
  const EDGES_LENGTH: nat := SHM_SIZE - 4
  /** One bit per edge in the bitmap that follows the count. */
  const MAX_EDGES: nat := (SHM_SIZE - 4) * 8

  /** `struct shmem_data`: the edge count and the bitmap of hit edges. */
  class ShmemData {
    var numEdges: uint32
    const edges: array<bv8>

    /** A region whose bitmap is `edges` and whose edge count is not yet written. */
    constructor (edges: array<bv8>)
      ensures this.edges == edges && numEdges == 0
    {
      numEdges := 0;
      this.edges := edges;
    }
  }

  // ------------------------------------------------------------------ numbering

  /** The guards after numbering the range [start, stop): the k-th guard of the range holds
      k + 1 as long as k < cap; every other guard keeps its value. */
  function Renumbered(guards: seq<uint32>, start: nat, stop: nat, cap: nat): (r: seq<uint32>)
    requires cap <= MAX_EDGES
    ensures |r| == |guards|
  {
    seq(|guards|, k requires 0 <= k < |guards| =>
      if start <= k < stop && k - start < cap then k - start + 1 else guards[k])
  }

  /** The numbering hands out 1, 2, ... consecutively in address order, each value in 1..cap,
      and leaves guards outside the range or past the cap as they were. */
  lemma {:induction false} RenumberedValues(guards: seq<uint32>, start: nat, stop: nat, cap: nat, k: nat)
    requires cap <= MAX_EDGES && k < |guards|
    ensures start <= k < stop && k - start < cap ==>
      Renumbered(guards, start, stop, cap)[k] == k - start + 1 && 1 <= Renumbered(guards, start, stop, cap)[k] <= cap
    ensures !(start <= k < stop && k - start < cap) ==> Renumbered(guards, start, stop, cap)[k] == guards[k]
    ensures start <= k && k + 1 < stop && k + 1 < |guards| && k + 1 - start < cap ==>
      Renumbered(guards, start, stop, cap)[k + 1] == Renumbered(guards, start, stop, cap)[k] + 1
  {
  }

  /** After numbering a non-empty range its first guard is 1, so a repeated
      `trace_pc_guard_init` on that range finds `*start != 0` and returns at once. */
  lemma FirstGuardIsOne(guards: seq<uint32>, start: nat, stop: nat, cap: nat)
    requires cap <= MAX_EDGES && 0 < cap
    requires start < stop <= |guards|
    ensures Renumbered(guards, start, stop, cap)[start] == 1
  {
  }

  // ------------------------------------------------------------------ the bitmap

  function Bit(k: nat): bv8
    requires k < 8
  {
    1 << k
  }

  predicate InBitmap(edges: seq<bv8>, index: nat) {
    index / 8 < |edges|
  }

  /** Whether the bitmap records `index` as hit: bit index % 8 of byte index / 8. */
  predicate EdgeHit(edges: seq<bv8>, index: nat)
    requires InBitmap(edges, index)
  {
    edges[index / 8] & Bit(index % 8) != 0
  }

  /** The bitmap after `edges[index / 8] |= 1 << (index % 8)`. */
  function Traced(edges: seq<bv8>, index: nat): (r: seq<bv8>)
    requires InBitmap(edges, index)
    ensures |r| == |edges|
  {
    edges[index / 8 := edges[index / 8] | Bit(index % 8)]
  }

  lemma SetBitSets(b: bv8, k: nat)
    requires k < 8
    ensures (b | Bit(k)) & Bit(k) != 0
  {
  }

  lemma SetBitKeepsOthers(b: bv8, k: nat, m: nat)
    requires k < 8 && m < 8 && k != m
    ensures ((b | Bit(k)) & Bit(m) != 0) == (b & Bit(m) != 0)
  {
  }

  lemma SetBitKeepsOld(b: bv8, k: nat)
    requires k < 8
    ensures (b | Bit(k)) & b == b
  {
  }

  /** After tracing `index`, exactly the edges hit before and `index` itself are hit. */
  lemma TracedHits(edges: seq<bv8>, index: nat, j: nat)
    requires InBitmap(edges, index) && InBitmap(edges, j)
    ensures EdgeHit(Traced(edges, index), j) <==> EdgeHit(edges, j) || j == index
  {
    var r := Traced(edges, index);
    if j / 8 == index / 8 {
      if j % 8 == index % 8 {
        assert j == index;
        SetBitSets(edges[index / 8], index % 8);
      } else {
        assert j != index;
        SetBitKeepsOthers(edges[index / 8], index % 8, j % 8);
      }
    } else {
      assert r[j / 8] == edges[j / 8];
    }
  }

  /** Bits only go from 0 to 1: every byte of the traced bitmap contains the old byte. */
  lemma TracedOnlySets(edges: seq<bv8>, index: nat)
    requires InBitmap(edges, index)
    ensures forall j :: 0 <= j < |edges| ==> Traced(edges, index)[j] & edges[j] == edges[j]
  {
    SetBitKeepsOld(edges[index / 8], index % 8);
  }

  /** Tracing the same index twice is the same as tracing it once. */
  lemma TracedIdempotent(edges: seq<bv8>, index: nat)
    requires InBitmap(edges, index)
    ensures Traced(Traced(edges, index), index) == Traced(edges, index)
  {
    var b := edges[index / 8];
    assert (b | Bit(index % 8)) | Bit(index % 8) == b | Bit(index % 8);
  }

  // ------------------------------------------------------------------ masking

  /** Bitwise AND of two unsigned numbers, bit by bit from the low end. */
  function And(a: nat, b: nat): (r: nat)
    ensures r <= a && r <= b
  {
    if a == 0 || b == 0 then 0
    else 2 * And(a / 2, b / 2) + (if a % 2 == 1 && b % 2 == 1 then 1 else 0)
  }

  function Pow2(k: nat): (p: nat)
    ensures p >= 1
  {
    if k == 0 then 1 else 2 * Pow2(k - 1)
  }

  /** Masking with 2^k - 1 keeps the low k bits: it is reduction modulo 2^k. */
  lemma {:induction false} AndLowMask(a: nat, k: nat)
    ensures And(a, Pow2(k) - 1) == a % Pow2(k)
  {
    if k == 0 || a == 0 {
    } else {
      var m := Pow2(k) - 1;
      assert m / 2 == Pow2(k - 1) - 1 && m % 2 == 1;
      AndLowMask(a / 2, k - 1);
      var p := Pow2(k - 1);
      assert And(a, m) == 2 * ((a / 2) % p) + a % 2;
      ModOfDouble(a, p);
    }
  }

  lemma ModOfDouble(a: nat, p: nat)
    requires p >= 1
    ensures 2 * ((a / 2) % p) + a % 2 == a % (2 * p)
  {
    var h := a / 2;
    var q := h / p;
    var r := h % p;
    assert h == q * p + r;
    assert a == 2 * h + a % 2;
    assert a == (2 * p) * q + (2 * r + a % 2) by {
      assert 2 * (q * p) == (2 * p) * q;
    }
    ModUnique(a, 2 * p, q, 2 * r + a % 2);
  }

  /** The remainder is the unique s in [0, d) with a == d * q + s. */
  lemma ModUnique(a: nat, d: nat, q: nat, s: nat)
    requires d >= 1 && s < d && a == d * q + s
    ensures a % d == s
  {
    var q' := a / d;
    var s' := a % d;
    assert a == d * q' + s';
    MulMonotone(d, q' + 1, q);
    MulMonotone(d, q + 1, q');
    assert d * (q' + 1) == d * q' + d && d * (q + 1) == d * q + d;
  }

  lemma MulMonotone(d: nat, x: nat, y: nat)
    ensures x <= y ==> d * x <= d * y
  {
    if x <= y {
      assert d * y == d * x + d * (y - x);
    }
  }

  /** A mask below MAX_EDGES keeps every masked guard value inside the bitmap. */
  lemma MaskedIndexInBitmap(edges: seq<bv8>, guard: nat, mask: nat)
    requires |edges| == EDGES_LENGTH && mask < MAX_EDGES
    ensures InBitmap(edges, And(guard, mask))
  {
  }

  // ------------------------------------------------------------------ the reset bound

  /** As the three runtimes number the guards, with the cap MAX_EDGES, a range of MAX_EDGES
      guards or more gives its last numbered guard the value MAX_EDGES, whose byte
      MAX_EDGES / 8 is the first byte past `edges`. */
  lemma ResetCanOverrunBitmap(guards: seq<uint32>, start: nat, stop: nat, edges: seq<bv8>)
    requires |edges| == EDGES_LENGTH
    requires start + MAX_EDGES <= stop <= |guards|
    ensures Renumbered(guards, start, stop, MAX_EDGES)[start + MAX_EDGES - 1] == MAX_EDGES
    ensures !InBitmap(edges, Renumbered(guards, start, stop, MAX_EDGES)[start + MAX_EDGES - 1])
  {
  }

  /** The cap that keeps every index inside the bitmap: guard values 1..MAX_EDGES - 1. */
  const INTENDED_CAP: nat := MAX_EDGES - 1

  /** With the cap INTENDED_CAP every guard the numbering touches selects a byte of `edges`. */
  lemma IntendedCapStaysInBitmap(guards: seq<uint32>, start: nat, stop: nat, edges: seq<bv8>, k: nat)
    requires |edges| == EDGES_LENGTH
    requires start <= k < stop <= |guards| && k - start < INTENDED_CAP
    ensures InBitmap(edges, Renumbered(guards, start, stop, INTENDED_CAP)[k])
  {
    RenumberedValues(guards, start, stop, INTENDED_CAP, k);
  }
}
