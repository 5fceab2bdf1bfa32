/**
 * The standalone binary: its own copy of the region processor, which
 * reports only the number of removed chunks, and `main`, which processes
 * every region file, sums the removed chunks of the files that succeeded
 * and measures the freed space.
 */
module Standalone {
  import opened Wrappers
  import opened Units
  import opened Storage
  import opened Enumeration
  import opened Aggregation
  import Compaction

  /**
   * The first `n` slots in scan order have been visited without an error:
   * they are compacted, the others untouched, and `deleted` counts the
   * removals.
   */
  ghost predicate VisitedUpTo(region: Region, cutoff: nat, slots: seq<Slot>, deleted: nat, n: nat)
  {
    && n <= SLOT_COUNT
    && |slots| == SLOT_COUNT
    && (forall j :: 0 <= j < SLOT_COUNT ==>
          slots[j] == if j < n then Compaction.Compacted(region.slots[j], cutoff) else region.slots[j])
    && (forall j :: 0 <= j < n ==> !Compaction.Aborts(region.slots[j], j, cutoff, region.removeFaults))
    && deleted == Compaction.CountDoomed(region.slots[..n], cutoff)
  }

  /**
   * The loop body for slot `i`: skip it if unreadable or empty, fail if its
   * payload does not decode, remove it (failing if removal fails) if its
   * time is at most the cutoff. On failure the slots are what the
   * library's scan leaves.
   */
  method VisitSlot(region: Region, cutoff: nat, slots: seq<Slot>, deleted: nat, i: nat)
    returns (slots': seq<Slot>, deleted': nat, failure: Option<RegionError>)
    requires i < SLOT_COUNT && VisitedUpTo(region, cutoff, slots, deleted, i)
    ensures failure.None? ==> VisitedUpTo(region, cutoff, slots', deleted', i + 1)
    ensures failure.Some? ==>
      var scan := Compaction.ScanSlots(region.slots, 0, cutoff, region.removeFaults);
      slots' == scan.slots && failure == scan.failure
  {
    Compaction.CountDoomedStep(region.slots, i, cutoff);
    slots', deleted', failure := slots, deleted, None;
    if slots[i].Stored? {
      if slots[i].payload.Malformed? {
        Compaction.AbortState(region.slots, slots, cutoff, region.removeFaults, i);
        failure := Some(NbtError);
      } else if slots[i].payload.inhabitedTime <= cutoff {
        deleted' := deleted + 1;
        if i in region.removeFaults {
          Compaction.AbortState(region.slots, slots, cutoff, region.removeFaults, i);
          failure := Some(AnvilError);
        } else {
          slots' := slots[i := Vacant];
        }
      }
    }
  }

  /**
   * The binary's scan loop over an opened region: `x` outer, `y` inner,
   * stopping at the first slot that fails. It ends where the library's
   * scan ends, counting the same removals.
   */
  method ScanGrid(region: Region, cutoff: nat) returns (slots: seq<Slot>, deleted: nat, failure: Option<RegionError>)
    ensures var scan := Compaction.ScanSlots(region.slots, 0, cutoff, region.removeFaults);
      && slots == scan.slots
      && failure == scan.failure
      && (failure.None? ==> deleted == scan.deleted)
  {
    slots := region.slots;
    deleted := 0;
    for x := 0 to GRID_WIDTH
      invariant VisitedUpTo(region, cutoff, slots, deleted, x * GRID_WIDTH)
    {
      for y := 0 to GRID_WIDTH
        invariant VisitedUpTo(region, cutoff, slots, deleted, x * GRID_WIDTH + y)
      {
        slots, deleted, failure := VisitSlot(region, cutoff, slots, deleted, SlotIndex(x, y));
        if failure.Some? {
          return;
        }
      }
    }
    Compaction.CleanScan(region.slots, 0, cutoff, region.removeFaults);
    assert region.slots[..SLOT_COUNT] == region.slots;
    assert slots == Compaction.ScanSlots(region.slots, 0, cutoff, region.removeFaults).slots;
    failure := None;
  }

  /**
   * The binary's `process_region_file`: the same row-major scan as the
   * library's. It changes the file exactly as the library's processor
   * does and returns the library's `deleted_chunks`, or the same error.
   */
  method ProcessRegionFile(file: RegionPath, maxInhabitedTime: USize) returns (after: Access, result: Result<nat, RegionError>)
    ensures var c := Compaction.ProcessRegionFile(file, maxInhabitedTime);
      && after == c.after
      && result == (if c.result.Success? then Success(c.result.value.deletedChunks) else Failure(c.result.error))
    ensures result.Success? ==>
      result.value == Compaction.CountDoomed(file.entry.access.region.slots, Cutoff(maxInhabitedTime)) <= SLOT_COUNT
  {
    Compaction.ProcessedRegionCounts(file, maxInhabitedTime);
    if !file.entry.access.Opened? {
      after := file.entry.access;
      result := Failure(if after.Unopenable? then IoError else AnvilError);
      return;
    }
    var region := file.entry.access.region;
    Compaction.DoomedAreExamined(region.slots, Cutoff(maxInhabitedTime));
    var slots, deleted, failure := ScanGrid(region, Cutoff(maxInhabitedTime));
    after := Opened(region.(slots := slots));
    if failure.Some? {
      result := Failure(failure.value);
    } else if region.releaseFault.Some? {
      result := Failure(region.releaseFault.value);
    } else {
      result := Success(deleted);
    }
  }

  /**
   * The binary's parallel `for_each` as a loop: every file is processed,
   * a failing file adds nothing and does not stop the others, and the
   * removed-chunk counts of the files that succeed are added up.
   */
  method ProcessAll(files: seq<RegionPath>, threshold: USize) returns (total: nat)
    ensures total == SumOk(ResultsOf(files, threshold), DeletedOf)
  {
    ghost var results := ResultsOf(files, threshold);
    total := 0;
    for i := 0 to |files|
      invariant total == SumOk(results[..i], DeletedOf)
    {
      var _, r := ProcessRegionFile(files[i], threshold);
      assert ResultShare(results[i], DeletedOf) == if r.Success? then r.value else 0;
      SumPrefixStep(results, i, DeletedOf);
      if r.Success? {
        total := total + r.value;
      }
    }
    assert results[..|files|] == results;
  }

  datatype Args = Args(maxInhabitedTime: USize, threadCount: Option<nat>)

  /** What `main` reports on success (elapsed time is wall-clock and not modelled). */
  datatype Summary = Summary(totalFiles: nat, deletedChunks: nat, freedSpace: nat)

  /** Why `main` exits with an error before finishing. */
  datatype Exit = FolderMissing | PoolFailed | MeasureFailed | CollectFailed

  /**
   * What the host supplies: whether the global thread pool can be built
   * and the world folder's size before and after (`None` when measuring
   * fails).
   */
  datatype Machine = Machine(poolBuilds: bool, sizeBefore: Option<nat>, sizeAfter: Option<nat>)

  /**
   * `main`: bail if the world folder is missing, build the pool only when a
   * thread count is given, measure the world, collect the region files,
   * process every file (a failing file is only logged and adds nothing),
   * then measure again; a failed second measurement is an error here.
   */
  method RunStandalone(args: Args, world: World, machine: Machine) returns (outcome: Result<Summary, Exit>)
    requires SizesOrdered(machine.sizeBefore, machine.sizeAfter)
    ensures !world.present ==> outcome == Failure(FolderMissing)
    ensures world.present && args.threadCount.Some? && !machine.poolBuilds ==> outcome == Failure(PoolFailed)
    ensures (world.present && (args.threadCount.None? || machine.poolBuilds) && machine.sizeBefore.None?)
            ==> outcome == Failure(MeasureFailed)
    ensures (world.present && (args.threadCount.None? || machine.poolBuilds) && machine.sizeBefore.Some?
             && CollectRegionFiles(world.folders).Failure?)
            ==> outcome == Failure(CollectFailed)
    ensures (world.present && (args.threadCount.None? || machine.poolBuilds) && machine.sizeBefore.Some?
             && CollectRegionFiles(world.folders).Success? && machine.sizeAfter.None?)
            ==> outcome == Failure(MeasureFailed)
    ensures outcome.Success? <==>
      && world.present
      && (args.threadCount.None? || machine.poolBuilds)
      && machine.sizeBefore.Some?
      && CollectRegionFiles(world.folders).Success?
      && machine.sizeAfter.Some?
    ensures outcome.Success? ==>
      var files := CollectRegionFiles(world.folders).value;
      outcome.value == Summary(
        |files|,
        SumOk(ResultsOf(files, ScaleThreshold(args.maxInhabitedTime)), DeletedOf),
        machine.sizeBefore.value - machine.sizeAfter.value)
  {
    if !world.present {
      return Failure(FolderMissing);
    }
    if args.threadCount.Some? && !machine.poolBuilds {
      return Failure(PoolFailed);
    }
    if machine.sizeBefore.None? {
      return Failure(MeasureFailed);
    }
    var collected := CollectRegionFiles(world.folders);
    if collected.Failure? {
      return Failure(CollectFailed);
    }
    var files := collected.value;
    var total := ProcessAll(files, ScaleThreshold(args.maxInhabitedTime));
    if machine.sizeAfter.None? {
      return Failure(MeasureFailed);
    }
    outcome := Success(Summary(|files|, total, machine.sizeBefore.value - machine.sizeAfter.value));
  }
}
