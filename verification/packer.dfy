/**
 * find_order: the exhaustive search for the ordering of the eight streams
 * whose first-fit packing into 16 KB ROM banks uses the fewest ROMs, and the
 * packing of the winning ordering into lists of streams, one per ROM.
 */
module Packer {
  import opened Wrappers
  import opened VgcTypes
  import opened Orderings

  /** The search's initial best_num_roms: more ROMs than any ordering of eight streams needs. */
  const InitialBestNumRoms: nat := 16

  /** The state of one first-fit simulation: ROMs opened, bytes in the current ROM. */
  datatype Simulation = Simulation(numRoms: nat, romSize: nat)

  /**
   * The search's inner loop on one ordering: start with one empty ROM; a
   * stream that would take the current ROM past 16384 bytes opens a new one.
   */
  function Simulate(order: seq<Stream>): (r: Simulation)
    ensures 1 <= r.numRoms <= |order| + 1
    ensures AllFit(order) ==> r.romSize <= Capacity
    ensures AllFit(order) && order != [] ==> r.numRoms <= |order|
  {
    if order == [] then Simulation(1, 0)
    else
      var before := Simulate(order[..|order| - 1]);
      var n := Size(order[|order| - 1]);
      if before.romSize + n > Capacity then Simulation(before.numRoms + 1, n)
      else Simulation(before.numRoms, before.romSize + n)
  }

  /** The number of ROMs first fit uses for an ordering. */
  function FirstFitCount(order: seq<Stream>): (n: nat)
    ensures 1 <= n <= |order| + 1
  {
    Simulate(order).numRoms
  }

  /** The search's state: best_num_roms and best_order. */
  datatype Best = Best(numRoms: nat, order: Option<seq<Stream>>)

  /**
   * The search's outer loop over the orderings in enumeration order: an
   * ordering replaces the best so far only if it needs strictly fewer ROMs.
   */
  function Search(perms: seq<seq<Stream>>): (r: Best)
    ensures r.order.None? ==> r.numRoms == InitialBestNumRoms
    ensures r.order.Some? ==> r.numRoms == FirstFitCount(r.order.value) < InitialBestNumRoms
  {
    if perms == [] then Best(InitialBestNumRoms, None)
    else
      var before := Search(perms[..|perms| - 1]);
      var last := perms[|perms| - 1];
      if FirstFitCount(last) < before.numRoms then Best(FirstFitCount(last), Some(last))
      else before
  }

  /**
   * The search ends on the FIRST ordering, in enumeration order, whose ROM
   * count is the smallest of all: every ordering needs at least as many ROMs,
   * and every earlier one needs strictly more.
   */
  lemma {:induction false} SearchWinner(perms: seq<seq<Stream>>) returns (j: nat)
    requires perms != []
    requires forall k :: 0 <= k < |perms| ==> FirstFitCount(perms[k]) < InitialBestNumRoms
    ensures j < |perms|
    ensures Search(perms) == Best(FirstFitCount(perms[j]), Some(perms[j]))
    ensures forall k :: 0 <= k < |perms| ==> FirstFitCount(perms[j]) <= FirstFitCount(perms[k])
    ensures forall k :: 0 <= k < j ==> FirstFitCount(perms[j]) < FirstFitCount(perms[k])
    decreases |perms|
  {
    var init := perms[..|perms| - 1];
    var last := |perms| - 1;
    if init == [] {
      j := 0;
    } else {
      forall k | 0 <= k < |init| ensures FirstFitCount(init[k]) < InitialBestNumRoms {
        assert init[k] == perms[k];
      }
      var i := SearchWinner(init);
      assert init[i] == perms[i];
      assert Search(perms) == if FirstFitCount(perms[last]) < Search(init).numRoms
        then Best(FirstFitCount(perms[last]), Some(perms[last])) else Search(init);
      forall k | 0 <= k < last ensures FirstFitCount(perms[i]) <= FirstFitCount(perms[k]) {
        assert init[k] == perms[k];
      }
      forall k | 0 <= k < i ensures FirstFitCount(perms[i]) < FirstFitCount(perms[k]) {
        assert init[k] == perms[k];
      }
      j := NextWinner(perms, i);
    }
  }

  /**
   * One more ordering: it becomes the first minimum if it needs strictly
   * fewer ROMs than the first minimum of the earlier ones.
   */
  lemma NextWinner(perms: seq<seq<Stream>>, i: nat) returns (j: nat)
    requires i < |perms| - 1
    requires forall k :: 0 <= k < |perms| - 1 ==> FirstFitCount(perms[i]) <= FirstFitCount(perms[k])
    requires forall k :: 0 <= k < i ==> FirstFitCount(perms[i]) < FirstFitCount(perms[k])
    ensures j == if FirstFitCount(perms[|perms| - 1]) < FirstFitCount(perms[i]) then |perms| - 1 else i
    ensures forall k :: 0 <= k < |perms| ==> FirstFitCount(perms[j]) <= FirstFitCount(perms[k])
    ensures forall k :: 0 <= k < j ==> FirstFitCount(perms[j]) < FirstFitCount(perms[k])
  {
    j := if FirstFitCount(perms[|perms| - 1]) < FirstFitCount(perms[i]) then |perms| - 1 else i;
  }

  lemma SearchBounded(streams: seq<Stream>)
    requires |streams| == StreamCount
    ensures Permutations(streams) != []
    ensures forall k :: 0 <= k < |Permutations(streams)| ==>
      FirstFitCount(Permutations(streams)[k]) < InitialBestNumRoms
  {
    PermutationsFirst(streams);
    PermutationsSound(streams);
    forall k | 0 <= k < |Permutations(streams)|
      ensures FirstFitCount(Permutations(streams)[k]) < InitialBestNumRoms
    {
      var p := Permutations(streams)[k];
      assert |p| == |multiset(p)| == |streams|;
    }
  }

  /** The search always ends on one of the enumerated orderings. */
  lemma SearchFinds(streams: seq<Stream>)
    requires |streams| == StreamCount
    ensures Search(Permutations(streams)).order.Some?
    ensures Search(Permutations(streams)).order.value in Permutations(streams)
  {
    SearchBounded(streams);
    var j := SearchWinner(Permutations(streams));
  }

  /** The ordering the search settles on (best_order). */
  function Winner(streams: seq<Stream>): (order: seq<Stream>)
    requires |streams| == StreamCount
    ensures order in Permutations(streams)
  {
    SearchFinds(streams);
    Search(Permutations(streams)).order.value
  }

  /** The state of the second loop: the ROMs so far and bytes in the last one. */
  datatype Packing = Packing(roms: seq<seq<Stream>>, romSize: nat)

  /**
   * What the second loop keeps true: no ROM is empty, and the size it keeps is
   * the size of the last ROM, or 16385 before the first ROM is opened.
   */
  predicate Consistent(p: Packing)
  {
    && (p.roms == [] ==> p.romSize == Capacity + 1)
    && (p.roms != [] ==> p.romSize == Total(p.roms[|p.roms| - 1]))
    && forall i :: 0 <= i < |p.roms| ==> p.roms[i] != []
  }

  /** Every ROM holds at most a bank's worth. */
  predicate WithinCapacity(roms: seq<seq<Stream>>)
  {
    forall i :: 0 <= i < |roms| ==> Total(roms[i]) <= Capacity
  }

  /**
   * One step of the second loop: a stream that would take the last ROM past
   * 16384 bytes opens a new ROM, otherwise it joins the last ROM.
   */
  function PlaceStream(p: Packing, s: Stream): Packing
    requires p.roms == [] ==> p.romSize > Capacity
  {
    if p.romSize + Size(s) > Capacity then Packing(p.roms + [[s]], Size(s))
    else
      var last := |p.roms| - 1;
      Packing(p.roms[..last] + [p.roms[last] + [s]], p.romSize + Size(s))
  }

  /** A step keeps the loop's invariant. */
  lemma PlaceStreamConsistent(p: Packing, s: Stream)
    requires Consistent(p)
    ensures Consistent(PlaceStream(p, s))
  {
    if p.romSize + Size(s) > Capacity {
      assert [s][..0] == [];
    } else {
      var last := |p.roms| - 1;
      assert (p.roms[last] + [s])[..|p.roms[last]|] == p.roms[last];
    }
  }

  /** A step appends the stream to the flattened ROMs. */
  lemma PlaceStreamAppends(p: Packing, s: Stream)
    requires p.roms == [] ==> p.romSize > Capacity
    ensures Flatten(PlaceStream(p, s).roms) == Flatten(p.roms) + [s]
  {
    if p.romSize + Size(s) > Capacity {
      FlattenAppend(p.roms, [s]);
    } else {
      var last := |p.roms| - 1;
      var rest := p.roms[..last];
      assert p.roms == rest + [p.roms[last]];
      FlattenAppend(rest, p.roms[last]);
      FlattenAppend(rest, p.roms[last] + [s]);
    }
  }

  /** A stream that fits in a bank never takes a ROM past a bank's worth. */
  lemma PlaceStreamCapacity(p: Packing, s: Stream)
    requires Consistent(p) && WithinCapacity(p.roms) && Size(s) <= Capacity
    ensures WithinCapacity(PlaceStream(p, s).roms)
  {
    if p.romSize + Size(s) > Capacity {
      assert [s][..0] == [];
    } else {
      var last := |p.roms| - 1;
      assert (p.roms[last] + [s])[..|p.roms[last]|] == p.roms[last];
    }
  }

  /**
   * The second loop of find_order, run on the winning ordering: it starts with
   * rom_size = 16385, so the first stream always opens a ROM.
   */
  function Materialize(order: seq<Stream>): (p: Packing)
    ensures p.roms == [] ==> p.romSize > Capacity
  {
    if order == [] then Packing([], Capacity + 1)
    else PlaceStream(Materialize(order[..|order| - 1]), order[|order| - 1])
  }

  /** The second loop keeps its invariant: no ROM is empty, and rom_size is the last ROM's size. */
  lemma {:induction false} MaterializeConsistent(order: seq<Stream>)
    ensures Consistent(Materialize(order))
    decreases |order|
  {
    if order != [] {
      var init := order[..|order| - 1];
      MaterializeConsistent(init);
      PlaceStreamConsistent(Materialize(init), order[|order| - 1]);
    }
  }

  /** Laid end to end, the ROMs give back the ordering. */
  lemma {:induction false} MaterializeFlatten(order: seq<Stream>)
    ensures Flatten(Materialize(order).roms) == order
    decreases |order|
  {
    if order != [] {
      var init := order[..|order| - 1];
      var s := order[|order| - 1];
      MaterializeFlatten(init);
      PlaceStreamAppends(Materialize(init), s);
      assert order == init + [s];
    }
  }

  /**
   * The ROMs partition the ordering: laid end to end they give it back, and
   * none is empty.
   */
  lemma MaterializePartition(order: seq<Stream>)
    ensures Consistent(Materialize(order))
    ensures Flatten(Materialize(order).roms) == order
  {
    MaterializeConsistent(order);
    MaterializeFlatten(order);
  }

  /** When every stream fits in a bank, no ROM holds more than a bank's worth. */
  lemma {:induction false} MaterializeCapacity(order: seq<Stream>)
    requires AllFit(order)
    ensures WithinCapacity(Materialize(order).roms)
    decreases |order|
  {
    if order != [] {
      var init := order[..|order| - 1];
      assert AllFit(init) by {
        forall k | 0 <= k < |init| ensures Size(init[k]) <= Capacity {
          assert init[k] == order[k];
        }
      }
      MaterializeCapacity(init);
      MaterializePartition(init);
      PlaceStreamCapacity(Materialize(init), order[|order| - 1]);
    }
  }

  /**
   * When every stream fits in a bank, the second loop opens exactly as many
   * ROMs as the simulation counted, and ends with the same last-ROM size.
   */
  lemma {:induction false} MaterializeMatchesSimulation(order: seq<Stream>)
    requires AllFit(order) && order != []
    ensures |Materialize(order).roms| == FirstFitCount(order)
    ensures Materialize(order).romSize == Simulate(order).romSize
    decreases |order|
  {
    var init := order[..|order| - 1];
    assert Size(order[|order| - 1]) <= Capacity;
    if init != [] {
      assert AllFit(init) by {
        forall k | 0 <= k < |init| ensures Size(init[k]) <= Capacity {
          assert init[k] == order[k];
        }
      }
      MaterializeMatchesSimulation(init);
    }
  }

  /** A reordering of streams that all fit in a bank consists of streams that fit. */
  lemma AllFitReordered(a: seq<Stream>, b: seq<Stream>)
    requires multiset(a) == multiset(b) && AllFit(b)
    ensures AllFit(a)
  {
    forall k | 0 <= k < |a| ensures Size(a[k]) <= Capacity {
      assert a[k] in multiset(b);
    }
  }

  /**
   * The winning ordering, as a property of the enumeration: it is the j-th
   * ordering, the ROM count of every ordering is at least its count, and every
   * ordering enumerated before it needs strictly more ROMs.
   */
  lemma WinnerIsFirstMinimum(streams: seq<Stream>) returns (j: nat)
    requires |streams| == StreamCount
    ensures j < |Permutations(streams)| && Winner(streams) == Permutations(streams)[j]
    ensures forall k :: 0 <= k < |Permutations(streams)| ==>
      FirstFitCount(Winner(streams)) <= FirstFitCount(Permutations(streams)[k])
    ensures forall k :: 0 <= k < j ==>
      FirstFitCount(Winner(streams)) < FirstFitCount(Permutations(streams)[k])
  {
    SearchBounded(streams);
    j := SearchWinner(Permutations(streams));
  }

  /** No reordering of the streams packs, by first fit, into fewer ROMs than the winner. */
  lemma WinnerIsMinimal(streams: seq<Stream>, p: seq<Stream>)
    requires |streams| == StreamCount
    requires multiset(p) == multiset(streams)
    ensures FirstFitCount(Winner(streams)) <= FirstFitCount(p)
  {
    var j := WinnerIsFirstMinimum(streams);
    PermutationsComplete(streams, p);
    var k :| 0 <= k < |Permutations(streams)| && Permutations(streams)[k] == p;
  }

  /**
   * find_order: tries every ordering of the streams in itertools order,
   * keeping the first that needs the fewest ROMs, then packs that ordering.
   */
  method FindOrder(streams: seq<Stream>) returns (roms: seq<seq<Stream>>)
    requires |streams| == StreamCount
    ensures roms == Materialize(Winner(streams)).roms
    ensures multiset(Flatten(roms)) == multiset(streams)
    ensures forall i :: 0 <= i < |roms| ==> roms[i] != []
    ensures AllFit(streams) ==> WithinCapacity(roms)
    ensures AllFit(streams) ==> |roms| == FirstFitCount(Flatten(roms))
    ensures AllFit(streams) ==> forall p :: multiset(p) == multiset(streams) ==> |roms| <= FirstFitCount(p)
  {
    var best := SearchOrder(streams);
    roms := PackOrder(best);
    MaterializePartition(best);
    PermutationsSound(streams);
    if AllFit(streams) {
      AllFitReordered(best, streams);
      MaterializeCapacity(best);
      MaterializeMatchesSimulation(best);
      forall p | multiset(p) == multiset(streams)
        ensures |roms| <= FirstFitCount(p)
      {
        WinnerIsMinimal(streams, p);
      }
    }
  }

  /** The first loop of find_order: the search over all orderings. */
  method SearchOrder(streams: seq<Stream>) returns (best: seq<Stream>)
    requires |streams| == StreamCount
    ensures best == Winner(streams)
  {
    var perms := Permutations(streams);
    var bestOrder: Option<seq<Stream>> := None;
    var bestNumRoms: nat := InitialBestNumRoms;
    for i := 0 to |perms|
      invariant Best(bestNumRoms, bestOrder) == Search(perms[..i])
    {
      var order := perms[i];
      var numRoms := CountRoms(order);
      assert perms[..i + 1][..i] == perms[..i];
      assert Search(perms[..i + 1]) ==
        if numRoms < bestNumRoms then Best(numRoms, Some(order)) else Search(perms[..i]);
      if numRoms < bestNumRoms {
        bestNumRoms := numRoms;
        bestOrder := Some(order);
      }
    }
    assert perms[..|perms|] == perms;
    SearchFinds(streams);
    best := bestOrder.value;
  }

  /** The search's inner loop: first fit on one ordering, counting ROMs. */
  method CountRoms(order: seq<Stream>) returns (numRoms: nat)
    ensures numRoms == FirstFitCount(order)
    ensures 1 <= numRoms <= |order| + 1
  {
    var romSize: nat := 0;
    numRoms := 1;
    for j := 0 to |order|
      invariant Simulation(numRoms, romSize) == Simulate(order[..j])
    {
      if romSize + Size(order[j]) > Capacity {
        numRoms := numRoms + 1;
        romSize := 0;
      }
      romSize := romSize + Size(order[j]);
      assert order[..j + 1][..j] == order[..j];
    }
    assert order[..|order|] == order;
  }

  /** The second loop of find_order: first fit on the winning ordering, keeping the ROMs. */
  method PackOrder(order: seq<Stream>) returns (roms: seq<seq<Stream>>)
    ensures roms == Materialize(order).roms
    ensures Flatten(roms) == order
  {
    roms := [];
    var romSize: nat := Capacity + 1;
    for j := 0 to |order|
      invariant Packing(roms, romSize) == Materialize(order[..j])
    {
      var stream := order[j];
      ghost var before := Packing(roms, romSize);
      if romSize + Size(stream) > Capacity {
        roms := roms + [[]];
        romSize := 0;
        assert roms[..|roms| - 1] == before.roms;
        assert roms[|roms| - 1] + [stream] == [stream];
      }
      roms := roms[..|roms| - 1] + [roms[|roms| - 1] + [stream]];
      romSize := romSize + Size(stream);
      assert before.roms == [] ==> before.romSize > Capacity;
      assert Packing(roms, romSize) == PlaceStream(before, stream);
      assert order[..j + 1][..j] == order[..j];
    }
    assert order[..|order|] == order;
    MaterializePartition(order);
  }
}
