/**
 * The library's region processor: scan the 32×32 grid in row-major order,
 * remove every decodable chunk whose `InhabitedTime` is at most the cutoff,
 * count what was examined and removed, then release and truncate the file.
 */
module Compaction {
  import opened Wrappers
  import opened Units
  import opened Paths
  import opened Storage

  /** The result of one successfully processed region file. */
  datatype ProcessedRegion = ProcessedRegion(x: USize, y: USize, totalChunks: nat, deletedChunks: nat)

  /**
   * The state of a scan over a run of slots: the slots as they are now,
   * the chunks examined and removed so far, and the error that stopped the
   * scan, if one did.
   */
  datatype Scan = Scan(slots: seq<Slot>, examined: nat, deleted: nat, failure: Option<RegionError>)

  /** What processing one file leaves on disk, and what it reports. */
  datatype Outcome = Outcome(after: Access, result: Result<ProcessedRegion, RegionError>)

  // ---------------------------------------------------------------------
  // The decision rule, stated slot by slot
  // ---------------------------------------------------------------------

  /** A slot the processor examines and counts: readable, populated and decodable. */
  predicate Examinable(s: Slot)
  {
    s.Stored? && s.payload.Decodes?
  }

  /** A slot the processor removes: examinable, with a time at most the cutoff (inclusive). */
  predicate Doomed(s: Slot, cutoff: nat)
  {
    Examinable(s) && s.payload.inhabitedTime <= cutoff
  }

  /** The slot after a completed visit: doomed slots are emptied, all others kept. */
  function Compacted(s: Slot, cutoff: nat): Slot
  {
    if Doomed(s, cutoff) then Vacant else s
  }

  /** A slot whose visit stops the scan: its payload fails to decode, or its removal fails. */
  predicate Aborts(s: Slot, index: nat, cutoff: nat, removeFaults: set<nat>)
  {
    s.Stored? && (s.payload.Malformed? || (Doomed(s, cutoff) && index in removeFaults))
  }

  function AbortError(s: Slot): RegionError
    requires s.Stored?
  {
    if s.payload.Malformed? then NbtError else AnvilError
  }

  function CountExamined(slots: seq<Slot>): nat
    decreases |slots|
  {
    if |slots| == 0 then 0
    else (if Examinable(slots[0]) then 1 else 0) + CountExamined(slots[1..])
  }

  function CountDoomed(slots: seq<Slot>, cutoff: nat): nat
    decreases |slots|
  {
    if |slots| == 0 then 0
    else (if Doomed(slots[0], cutoff) then 1 else 0) + CountDoomed(slots[1..], cutoff)
  }

  // ---------------------------------------------------------------------
  // The scan, as the processor performs it
  // ---------------------------------------------------------------------

  /** `head` kept in front of a scan of the following slots, with its counts added. */
  function Then(head: Slot, examined: nat, deleted: nat, rest: Scan): Scan
  {
    Scan([head] + rest.slots, rest.examined + examined, rest.deleted + deleted, rest.failure)
  }

  /**
   * Visit `slots` in order; `index` is the scan position of `slots[0]`.
   * Unreadable and empty slots are skipped; a decode failure or a failed
   * removal stops the scan and leaves the visited slot and all later ones
   * as they were.
   */
  function ScanSlots(slots: seq<Slot>, index: nat, cutoff: nat, removeFaults: set<nat>): (r: Scan)
    ensures |r.slots| == |slots|
    ensures r.deleted <= r.examined <= |slots|
    decreases |slots|
  {
    if |slots| == 0 then Scan([], 0, 0, None)
    else
      match slots[0]
      case Unreadable => Then(slots[0], 0, 0, ScanSlots(slots[1..], index + 1, cutoff, removeFaults))
      case Vacant => Then(slots[0], 0, 0, ScanSlots(slots[1..], index + 1, cutoff, removeFaults))
      case Stored(Malformed) => Scan(slots, 0, 0, Some(NbtError))
      case Stored(Decodes(time)) =>
        if time <= cutoff then
          if index in removeFaults then Scan(slots, 0, 0, Some(AnvilError))
          else Then(Vacant, 1, 1, ScanSlots(slots[1..], index + 1, cutoff, removeFaults))
        else Then(slots[0], 1, 0, ScanSlots(slots[1..], index + 1, cutoff, removeFaults))
  }

  /**
   * `process_region_file(path, maxInhabitedTime)`: parse the coordinates
   * from the file name, open the region, scan it against the cutoff
   * `maxInhabitedTime / 20`, then release and truncate the file.
   */
  function ProcessRegionFile(file: RegionPath, maxInhabitedTime: USize): (c: Outcome)
    ensures c.result.Success? ==> c.result.value.deletedChunks <= c.result.value.totalChunks <= SLOT_COUNT
    ensures c.result.Success? ==> c.result.value.x == RegionCoordinates(FileStem(file.entry.name)).x
    ensures c.result.Success? ==> c.result.value.y == RegionCoordinates(FileStem(file.entry.name)).y
    ensures c.after.Opened? <==> file.entry.access.Opened?
  {
    var coordinates := RegionCoordinates(FileStem(file.entry.name));
    match file.entry.access
    case Unopenable => Outcome(Unopenable, Failure(IoError))
    case BadHeader => Outcome(BadHeader, Failure(AnvilError))
    case Opened(region) =>
      var scan := ScanSlots(region.slots, 0, Cutoff(maxInhabitedTime), region.removeFaults);
      var after := Opened(region.(slots := scan.slots));
      if scan.failure.Some? then Outcome(after, Failure(scan.failure.value))
      else if region.releaseFault.Some? then Outcome(after, Failure(region.releaseFault.value))
      else Outcome(after, Success(ProcessedRegion(coordinates.x, coordinates.y, scan.examined, scan.deleted)))
  }

  // ---------------------------------------------------------------------
  // What the scan does, slot by slot
  // ---------------------------------------------------------------------

  /** The scan stops with an error exactly when some slot aborts it. */
  lemma {:induction false} ScanFailsIffSomeSlotAborts(slots: seq<Slot>, index: nat, cutoff: nat, removeFaults: set<nat>)
    ensures ScanSlots(slots, index, cutoff, removeFaults).failure.None?
        <==> forall i :: 0 <= i < |slots| ==> !Aborts(slots[i], index + i, cutoff, removeFaults)
    decreases |slots|
  {
    if |slots| > 0 {
      ScanFailsIffSomeSlotAborts(slots[1..], index + 1, cutoff, removeFaults);
      if Aborts(slots[0], index, cutoff, removeFaults) {
        assert Aborts(slots[0], index + 0, cutoff, removeFaults);
      } else {
        forall i | 1 <= i < |slots|
          ensures Aborts(slots[i], index + i, cutoff, removeFaults)
              == Aborts(slots[1..][i - 1], index + 1 + (i - 1), cutoff, removeFaults)
        {
        }
      }
    }
  }

  /**
   * A scan no slot aborts removes exactly the doomed slots and counts the
   * examinable and the doomed ones.
   */
  lemma {:induction false} CleanScan(slots: seq<Slot>, index: nat, cutoff: nat, removeFaults: set<nat>)
    requires forall i :: 0 <= i < |slots| ==> !Aborts(slots[i], index + i, cutoff, removeFaults)
    ensures var r := ScanSlots(slots, index, cutoff, removeFaults);
      && r.failure.None?
      && (forall i :: 0 <= i < |slots| ==> r.slots[i] == Compacted(slots[i], cutoff))
      && r.examined == CountExamined(slots)
      && r.deleted == CountDoomed(slots, cutoff)
    decreases |slots|
  {
    if |slots| > 0 {
      assert !Aborts(slots[0], index + 0, cutoff, removeFaults);
      forall i | 0 <= i < |slots| - 1
        ensures !Aborts(slots[1..][i], index + 1 + i, cutoff, removeFaults)
      {
        assert !Aborts(slots[i + 1], index + (i + 1), cutoff, removeFaults);
      }
      CleanScan(slots[1..], index + 1, cutoff, removeFaults);
    }
  }

  /**
   * A scan stopped by slot `k`, the first slot that aborts, reports that
   * slot's error, leaves the slots before it compacted, and leaves it and
   * every later slot untouched: removals already done are not rolled back.
   */
  lemma {:induction false} AbortedScan(slots: seq<Slot>, index: nat, cutoff: nat, removeFaults: set<nat>, k: nat)
    requires k < |slots| && Aborts(slots[k], index + k, cutoff, removeFaults)
    requires forall j :: 0 <= j < k ==> !Aborts(slots[j], index + j, cutoff, removeFaults)
    ensures var r := ScanSlots(slots, index, cutoff, removeFaults);
      && r.failure == Some(AbortError(slots[k]))
      && (forall j :: 0 <= j < |slots| ==> r.slots[j] == if j < k then Compacted(slots[j], cutoff) else slots[j])
    decreases |slots|
  {
    if k > 0 {
      assert !Aborts(slots[0], index + 0, cutoff, removeFaults);
      forall j | 0 <= j < k - 1
        ensures !Aborts(slots[1..][j], index + 1 + j, cutoff, removeFaults)
      {
        assert !Aborts(slots[j + 1], index + (j + 1), cutoff, removeFaults);
      }
      assert slots[1..][k - 1] == slots[k];
      AbortedScan(slots[1..], index + 1, cutoff, removeFaults, k - 1);
    }
  }

  /**
   * A run of slots compacted up to the first slot that aborts is exactly
   * what the scan leaves behind, with that slot's error.
   */
  lemma AbortState(slots: seq<Slot>, current: seq<Slot>, cutoff: nat, removeFaults: set<nat>, k: nat)
    requires k < |slots| == |current| && Aborts(slots[k], k, cutoff, removeFaults)
    requires forall j :: 0 <= j < k ==> !Aborts(slots[j], j, cutoff, removeFaults)
    requires forall j :: 0 <= j < |slots| ==> current[j] == if j < k then Compacted(slots[j], cutoff) else slots[j]
    ensures var r := ScanSlots(slots, 0, cutoff, removeFaults);
      r.slots == current && r.failure == Some(AbortError(slots[k]))
  {
    AbortedScan(slots, 0, cutoff, removeFaults, k);
  }

  /** Whatever the outcome, a slot is either left as it was or was doomed and is now empty. */
  lemma {:induction false} ScanOnlyEmptiesDoomed(slots: seq<Slot>, index: nat, cutoff: nat, removeFaults: set<nat>)
    ensures var r := ScanSlots(slots, index, cutoff, removeFaults);
      forall i :: 0 <= i < |slots| ==>
        r.slots[i] == slots[i] || (Doomed(slots[i], cutoff) && r.slots[i] == Vacant)
    decreases |slots|
  {
    if |slots| > 0 {
      ScanOnlyEmptiesDoomed(slots[1..], index + 1, cutoff, removeFaults);
      var r := ScanSlots(slots, index, cutoff, removeFaults);
      var rest := ScanSlots(slots[1..], index + 1, cutoff, removeFaults);
      assert r.slots == slots || (r.slots[1..] == rest.slots && r.slots[0] == Compacted(slots[0], cutoff));
      if r.slots != slots {
        forall i | 1 <= i < |slots|
          ensures r.slots[i] == slots[i] || (Doomed(slots[i], cutoff) && r.slots[i] == Vacant)
        {
          assert r.slots[i] == rest.slots[i - 1] && slots[i] == slots[1..][i - 1];
        }
      }
    }
  }

  // ---------------------------------------------------------------------
  // Counting
  // ---------------------------------------------------------------------

  lemma {:induction false} DoomedAreExamined(slots: seq<Slot>, cutoff: nat)
    ensures CountDoomed(slots, cutoff) <= CountExamined(slots) <= |slots|
    decreases |slots|
  {
    if |slots| > 0 {
      DoomedAreExamined(slots[1..], cutoff);
    }
  }

  lemma {:induction false} CountsAppend(a: seq<Slot>, b: seq<Slot>, cutoff: nat)
    ensures CountExamined(a + b) == CountExamined(a) + CountExamined(b)
    ensures CountDoomed(a + b, cutoff) == CountDoomed(a, cutoff) + CountDoomed(b, cutoff)
    decreases |a|
  {
    if |a| == 0 {
      assert a + b == b;
    } else {
      assert (a + b)[0] == a[0];
      assert (a + b)[1..] == a[1..] + b;
      CountsAppend(a[1..], b, cutoff);
    }
  }

  /** Counting one more slot of a prefix. */
  lemma CountDoomedStep(slots: seq<Slot>, i: nat, cutoff: nat)
    requires i < |slots|
    ensures CountDoomed(slots[..i + 1], cutoff) == CountDoomed(slots[..i], cutoff) + (if Doomed(slots[i], cutoff) then 1 else 0)
  {
    assert slots[..i + 1] == slots[..i] + [slots[i]];
    CountsAppend(slots[..i], [slots[i]], cutoff);
  }

  /**
   * Compacting a run of slots keeps exactly the examinable slots that were
   * not doomed, and leaves none doomed.
   */
  lemma {:induction false} CompactedCounts(slots: seq<Slot>, after: seq<Slot>, cutoff: nat)
    requires |after| == |slots|
    requires forall i :: 0 <= i < |slots| ==> after[i] == Compacted(slots[i], cutoff)
    ensures CountExamined(after) == CountExamined(slots) - CountDoomed(slots, cutoff)
    ensures CountDoomed(after, cutoff) == 0
    decreases |slots|
  {
    if |slots| > 0 {
      DoomedAreExamined(slots[1..], cutoff);
      CompactedCounts(slots[1..], after[1..], cutoff);
    }
  }

  // ---------------------------------------------------------------------
  // Properties of processing one region file
  // ---------------------------------------------------------------------

  /** No slot of the region stops a scan against `cutoff`. */
  predicate ScansCleanly(region: Region, cutoff: nat)
  {
    forall i :: 0 <= i < |region.slots| ==> !Aborts(region.slots[i], i, cutoff, region.removeFaults)
  }

  /**
   * Processing succeeds exactly when the file opens, no slot aborts the scan
   * and the release succeeds; the counts are then the number of examinable
   * slots and of doomed slots, every doomed slot is emptied and every other
   * slot kept.
   */
  lemma ProcessedRegionCounts(file: RegionPath, maxInhabitedTime: USize)
    ensures var c := ProcessRegionFile(file, maxInhabitedTime);
      c.result.Success? <==>
        && file.entry.access.Opened?
        && ScansCleanly(file.entry.access.region, Cutoff(maxInhabitedTime))
        && file.entry.access.region.releaseFault.None?
    ensures var c := ProcessRegionFile(file, maxInhabitedTime);
      c.result.Success? ==>
        var before := file.entry.access.region.slots;
        && c.result.value.totalChunks == CountExamined(before)
        && c.result.value.deletedChunks == CountDoomed(before, Cutoff(maxInhabitedTime))
        && c.after == Opened(file.entry.access.region.(slots := c.after.region.slots))
        && forall i :: 0 <= i < SLOT_COUNT ==> c.after.region.slots[i] == Compacted(before[i], Cutoff(maxInhabitedTime))
  {
    if file.entry.access.Opened? {
      var region := file.entry.access.region;
      ScanFailsIffSomeSlotAborts(region.slots, 0, Cutoff(maxInhabitedTime), region.removeFaults);
      if ScansCleanly(region, Cutoff(maxInhabitedTime)) {
        CleanScan(region.slots, 0, Cutoff(maxInhabitedTime), region.removeFaults);
      }
    }
  }

  /** A file that cannot be opened, or whose header is malformed, is reported and left alone. */
  lemma OpenFailure(file: RegionPath, maxInhabitedTime: USize)
    requires !file.entry.access.Opened?
    ensures var c := ProcessRegionFile(file, maxInhabitedTime);
      && c.after == file.entry.access
      && c.result == Failure(if file.entry.access.Unopenable? then IoError else AnvilError)
  {
  }

  /**
   * When slot `k` is the first to fail to decode (or to be removed), the
   * file reports that error; removals before `k` stay done and slot `k` and
   * every later slot stay as they were.
   */
  lemma DecodeErrorKeepsEarlierRemovals(file: RegionPath, maxInhabitedTime: USize, k: nat)
    requires file.entry.access.Opened?
    requires var region := file.entry.access.region;
      && k < SLOT_COUNT
      && Aborts(region.slots[k], k, Cutoff(maxInhabitedTime), region.removeFaults)
      && forall j :: 0 <= j < k ==> !Aborts(region.slots[j], j, Cutoff(maxInhabitedTime), region.removeFaults)
    ensures var c := ProcessRegionFile(file, maxInhabitedTime);
      var before := file.entry.access.region.slots;
      && c.result == Failure(AbortError(before[k]))
      && c.after.Opened?
      && forall j :: 0 <= j < SLOT_COUNT ==>
           c.after.region.slots[j] == if j < k then Compacted(before[j], Cutoff(maxInhabitedTime)) else before[j]
  {
    var region := file.entry.access.region;
    AbortedScan(region.slots, 0, Cutoff(maxInhabitedTime), region.removeFaults, k);
  }

  /**
   * When the scan completes but releasing or truncating the file fails,
   * the file reports that error and every removal of the scan has already
   * been made.
   */
  lemma ReleaseFaultKeepsRemovals(file: RegionPath, maxInhabitedTime: USize)
    requires file.entry.access.Opened?
    requires ScansCleanly(file.entry.access.region, Cutoff(maxInhabitedTime))
    requires file.entry.access.region.releaseFault.Some?
    ensures var c := ProcessRegionFile(file, maxInhabitedTime);
      var region := file.entry.access.region;
      && c.result == Failure(region.releaseFault.value)
      && !c.result.error.NbtError?
      && c.after.Opened?
      && forall i :: 0 <= i < SLOT_COUNT ==>
           c.after.region.slots[i] == Compacted(region.slots[i], Cutoff(maxInhabitedTime))
  {
    var region := file.entry.access.region;
    CleanScan(region.slots, 0, Cutoff(maxInhabitedTime), region.removeFaults);
  }

  /**
   * Unreadable and empty slots never stop the scan and are never changed;
   * no slot changes unless it was doomed and is now empty.
   */
  lemma SkippedSlotsUntouched(file: RegionPath, maxInhabitedTime: USize)
    requires file.entry.access.Opened?
    ensures var c := ProcessRegionFile(file, maxInhabitedTime);
      var before := file.entry.access.region.slots;
      forall i :: 0 <= i < SLOT_COUNT ==>
        && (!before[i].Stored? ==> !Aborts(before[i], i, Cutoff(maxInhabitedTime), file.entry.access.region.removeFaults))
        && (!before[i].Stored? ==> c.after.region.slots[i] == before[i])
        && (c.after.region.slots[i] == before[i] || (Doomed(before[i], Cutoff(maxInhabitedTime)) && c.after.region.slots[i] == Vacant))
  {
    var region := file.entry.access.region;
    ScanOnlyEmptiesDoomed(region.slots, 0, Cutoff(maxInhabitedTime), region.removeFaults);
  }

  /**
   * With the configured threshold multiplied by 20 and divided again, a
   * chunk is removed iff its `InhabitedTime` is at most the configured
   * number: equal is removed, one
   * more is kept.
   */
  lemma InclusiveThreshold(seconds: USize, time: nat)
    requires seconds * TICKS_PER_SECOND < USIZE_MODULUS
    ensures Doomed(Stored(Decodes(time)), Cutoff(ScaleThreshold(seconds))) <==> time <= seconds
    ensures Doomed(Stored(Decodes(seconds)), Cutoff(ScaleThreshold(seconds)))
    ensures !Doomed(Stored(Decodes(seconds + 1)), Cutoff(ScaleThreshold(seconds)))
  {
  }

  /**
   * The configured threshold is compared with `InhabitedTime` in ticks,
   * not converted from seconds: a chunk inhabited for exactly `seconds`
   * seconds (`seconds * 20` ticks) is kept, while one inhabited for
   * `seconds` ticks is removed. With a threshold of 60, a chunk inhabited
   * for 100 ticks (5 seconds) is kept.
   */
  lemma ThresholdComparedAsTicks(seconds: USize)
    requires 0 < seconds && seconds * TICKS_PER_SECOND < USIZE_MODULUS
    ensures !Doomed(Stored(Decodes(seconds * TICKS_PER_SECOND)), Cutoff(ScaleThreshold(seconds)))
    ensures Doomed(Stored(Decodes(seconds)), Cutoff(ScaleThreshold(seconds)))
    ensures !Doomed(Stored(Decodes(100)), Cutoff(ScaleThreshold(60)))
  {
  }

  /**
   * In a file processed with the configured threshold times 20, every
   * examinable chunk ends up removed exactly when its `InhabitedTime`, in
   * ticks, is at most the configured number.
   */
  lemma RemovedIffAtMostThreshold(file: RegionPath, seconds: USize)
    requires seconds * TICKS_PER_SECOND < USIZE_MODULUS
    requires ProcessRegionFile(file, ScaleThreshold(seconds)).result.Success?
    ensures var c := ProcessRegionFile(file, ScaleThreshold(seconds));
      var before := file.entry.access.region.slots;
      forall i :: 0 <= i < SLOT_COUNT && Examinable(before[i]) ==>
        (c.after.region.slots[i] == Vacant <==> before[i].payload.inhabitedTime <= seconds)
  {
    ProcessedRegionCounts(file, ScaleThreshold(seconds));
  }

  /**
   * Processing an already processed file again with the same threshold
   * removes nothing, examines what the first pass kept, and leaves the
   * file as it was.
   */
  lemma Idempotent(file: RegionPath, maxInhabitedTime: USize)
    requires ProcessRegionFile(file, maxInhabitedTime).result.Success?
    ensures var first := ProcessRegionFile(file, maxInhabitedTime);
      var again := ProcessRegionFile(RegionPath(file.folder, file.entry.(access := first.after)), maxInhabitedTime);
      && again.result.Success?
      && again.result.value.deletedChunks == 0
      && again.result.value.totalChunks == first.result.value.totalChunks - first.result.value.deletedChunks
      && again.after == first.after
  {
    var cutoff := Cutoff(maxInhabitedTime);
    var first := ProcessRegionFile(file, maxInhabitedTime);
    ProcessedRegionCounts(file, maxInhabitedTime);
    var before := file.entry.access.region.slots;
    var region' := first.after.region;
    var file' := RegionPath(file.folder, file.entry.(access := first.after));
    assert forall i :: 0 <= i < SLOT_COUNT ==> !Doomed(region'.slots[i], cutoff);
    assert ScansCleanly(region', cutoff) by {
      assert ScansCleanly(file.entry.access.region, cutoff);
      forall i | 0 <= i < SLOT_COUNT
        ensures !Aborts(region'.slots[i], i, cutoff, region'.removeFaults)
      {
        assert !Aborts(before[i], i, cutoff, region'.removeFaults);
      }
    }
    ProcessedRegionCounts(file', maxInhabitedTime);
    CompactedCounts(before, region'.slots, cutoff);
    var again := ProcessRegionFile(file', maxInhabitedTime);
    assert again.after.region.slots == region'.slots;
  }
}
