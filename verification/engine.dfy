/**
 * The library entry point `execute`: setup checks, the event stream and
 * the final report, with the parallel fan-out replaced by a fold over the
 * file list in order.
 *
 * Each send is numbered: `Starting` is message 0, the event for file `i`
 * is message `i + 1`, `Finished` is message `|files| + 1`. The consumer
 * drops the receiver after some number of messages; every later send fails.
 */
module Engine {
  import opened Wrappers
  import opened Units
  import opened Storage
  import opened Compaction
  import opened Aggregation
  import opened Enumeration

  /** The errors `execute` returns before any processing starts. */
  datatype SetupError = WorldFolderNotFound | IOError | RayonError

  /**
   * The part of the library's `Config` the run depends on. The thread count
   * only sizes the pool; whether building the pool succeeds is the host's
   * `poolBuilds`, and the world folder is the `World` passed alongside.
   */
  datatype Config = Config(maxInhabitedTime: USize)

  /** Elapsed time is wall-clock and is not part of the model. */
  datatype Report = Report(totalFreedSpace: nat, totalRegions: nat, totalChunks: nat, totalDeletedChunks: nat)

  datatype Update = Starting(totalFiles: nat) | Processed(result: FileResult) | Finished(report: Report)

  /** The consumer end of the channel: `None` reads to the end, `Some(k)` is dropped after `k` messages. */
  datatype Receiver = Receiver(dropsAfter: Option<nat>)

  /** Whether send number `n` succeeds. */
  predicate Accepts(rx: Receiver, n: nat)
  {
    rx.dropsAfter.None? || n < rx.dropsAfter.value
  }

  /**
   * What the host supplies: whether the global thread pool can still be
   * built, the world folder's size before the run and after it (`None`
   * when measuring fails), and the consumer.
   */
  datatype Host = Host(poolBuilds: bool, sizeBefore: Option<nat>, sizeAfter: Option<nat>, receiver: Receiver)

  /** The files processed, the events the consumer received, and whether a refused send stopped the run. */
  datatype Dispatch = Dispatch(results: seq<FileResult>, delivered: seq<Update>, cancelled: bool)

  /** How many of the sends numbered `sent`, ..., `sent + n - 1` the receiver accepts. */
  function Window(rx: Receiver, sent: nat, n: nat): (w: nat)
    ensures w <= n
    ensures forall i :: sent <= i < sent + n ==> (Accepts(rx, i) <==> i < sent + w)
  {
    if rx.dropsAfter.None? || sent + n <= rx.dropsAfter.value then n
    else if rx.dropsAfter.value <= sent then 0
    else rx.dropsAfter.value - sent
  }

  /**
   * Process `files` in order, sending one event per file as message
   * `sent`, `sent + 1`, ...; the file whose event is refused has been
   * processed already, and no file after it is started.
   */
  function DispatchFiles(files: seq<RegionPath>, maxInhabitedTime: USize, rx: Receiver, sent: nat): (d: Dispatch)
    ensures |d.results| <= |files|
    ensures !d.cancelled ==> |d.results| == |files|
    ensures |d.delivered| + (if d.cancelled then 1 else 0) == |d.results|
    decreases |files|
  {
    if |files| == 0 then Dispatch([], [], false)
    else
      var result := ProcessRegionFile(files[0], maxInhabitedTime).result;
      if Accepts(rx, sent) then
        var rest := DispatchFiles(files[1..], maxInhabitedTime, rx, sent + 1);
        Dispatch([result] + rest.results, [Processed(result)] + rest.delivered, rest.cancelled)
      else Dispatch([result], [], true)
  }

  /** One run: the events the consumer received, the per-file results, and the report if one was assembled. */
  datatype Run = Run(events: seq<Update>, results: seq<FileResult>, report: Option<Report>)

  /**
   * The spawned worker: send `Starting`, process the files, and, if no
   * send was refused, assemble the report (an unmeasurable world counts
   * as size 0 afterwards) and send `Finished`.
   */
  function RunFiles(files: seq<RegionPath>, maxInhabitedTime: USize, host: Host): (run: Run)
    requires host.sizeBefore.Some? && SizesOrdered(host.sizeBefore, host.sizeAfter)
    ensures |run.results| <= |files|
    ensures run.report.Some? ==> run.report.value.totalRegions == |files|
  {
    var rx := host.receiver;
    var starting := if Accepts(rx, 0) then [Starting(|files|)] else [];
    var d := DispatchFiles(files, maxInhabitedTime, rx, 1);
    if d.cancelled then Run(starting + d.delivered, d.results, None)
    else
      var report := Report(host.sizeBefore.value - host.sizeAfter.GetOr(0), |files|,
                           SumOk(d.results, ChunksOf), SumOk(d.results, DeletedOf));
      var finished := if Accepts(rx, |files| + 1) then [Finished(report)] else [];
      Run(starting + d.delivered + finished, d.results, Some(report))
  }

  /**
   * `execute(config)`: fail if the world folder is missing, the thread
   * pool cannot be built, the region folders cannot be listed or the
   * world cannot be measured; otherwise run the files with the threshold
   * multiplied by 20.
   */
  function Execute(config: Config, world: World, host: Host): (r: Result<Run, SetupError>)
    requires SizesOrdered(host.sizeBefore, host.sizeAfter)
    ensures !world.present ==> r == Failure(WorldFolderNotFound)
    ensures world.present && !host.poolBuilds ==> r == Failure(RayonError)
    ensures world.present && host.poolBuilds && r.Failure? ==> r == Failure(IOError)
    ensures r.Success? <==>
      && world.present
      && host.poolBuilds
      && CollectRegionFiles(world.folders).Success?
      && host.sizeBefore.Some?
  {
    if !world.present then Failure(WorldFolderNotFound)
    else if !host.poolBuilds then Failure(RayonError)
    else
      match CollectRegionFiles(world.folders)
      case Failure(_) => Failure(IOError)
      case Success(files) =>
        if host.sizeBefore.None? then Failure(IOError)
        else Success(RunFiles(files, ScaleThreshold(config.maxInhabitedTime), host))
  }

  // ---------------------------------------------------------------------
  // The event protocol
  // ---------------------------------------------------------------------

  /** One `Processed` event per result, in order. */
  function Updates(results: seq<FileResult>): (us: seq<Update>)
    ensures |us| == |results|
    ensures forall i :: 0 <= i < |results| ==> us[i] == Processed(results[i])
  {
    seq(|results|, i requires 0 <= i < |results| => Processed(results[i]))
  }

  /** Every message a run attempts, in order: `Starting`, one event per processed file, `Finished` if a report was assembled. */
  function Protocol(totalFiles: nat, results: seq<FileResult>, report: Option<Report>): seq<Update>
  {
    [Starting(totalFiles)] + Updates(results) + (if report.Some? then [Finished(report.value)] else [])
  }

  /** The results extracted from `Processed` events, in order. */
  function ResultsIn(events: seq<Update>): seq<FileResult>
    decreases |events|
  {
    if |events| == 0 then []
    else (if events[0].Processed? then [events[0].result] else []) + ResultsIn(events[1..])
  }

  lemma {:induction false} DispatchDelivery(files: seq<RegionPath>, maxInhabitedTime: USize, rx: Receiver, sent: nat)
    ensures var d := DispatchFiles(files, maxInhabitedTime, rx, sent);
      var w := Window(rx, sent, |files|);
      && |d.delivered| == w
      && (d.cancelled <==> w < |files|)
      && |d.results| == (if d.cancelled then w + 1 else |files|)
      && d.delivered == Updates(d.results[..w])
    decreases |files|
  {
    if |files| > 0 {
      if Accepts(rx, sent) {
        DispatchDelivery(files[1..], maxInhabitedTime, rx, sent + 1);
        WindowStep(rx, sent, |files|);
        DeliveryStep(files, maxInhabitedTime, rx, sent);
      }
    }
  }

  lemma WindowStep(rx: Receiver, sent: nat, n: nat)
    requires n > 0 && Accepts(rx, sent)
    ensures Window(rx, sent, n) == 1 + Window(rx, sent + 1, n - 1)
  {
  }

  /** One accepted send puts its event in front of the rest of the dispatch. */
  lemma DeliveryStep(files: seq<RegionPath>, maxInhabitedTime: USize, rx: Receiver, sent: nat)
    requires |files| > 0 && Accepts(rx, sent)
    requires var rest := DispatchFiles(files[1..], maxInhabitedTime, rx, sent + 1);
      rest.delivered == Updates(rest.results[..|rest.delivered|])
    ensures var d := DispatchFiles(files, maxInhabitedTime, rx, sent);
      d.delivered == Updates(d.results[..|d.delivered|])
  {
    var d := DispatchFiles(files, maxInhabitedTime, rx, sent);
    var rest := DispatchFiles(files[1..], maxInhabitedTime, rx, sent + 1);
    var w := |rest.delivered|;
    assert d.results == [d.results[0]] + rest.results;
    assert d.results[..1 + w] == [d.results[0]] + rest.results[..w];
  }

  lemma {:induction false} DispatchResults(files: seq<RegionPath>, maxInhabitedTime: USize, rx: Receiver, sent: nat)
    ensures var d := DispatchFiles(files, maxInhabitedTime, rx, sent);
      d.results == ResultsOf(files, maxInhabitedTime)[..|d.results|]
    decreases |files|
  {
    if |files| > 0 && Accepts(rx, sent) {
      DispatchResults(files[1..], maxInhabitedTime, rx, sent + 1);
      var all := ResultsOf(files, maxInhabitedTime);
      var rest := DispatchFiles(files[1..], maxInhabitedTime, rx, sent + 1);
      assert all[1..] == ResultsOf(files[1..], maxInhabitedTime);
      assert all[..1 + |rest.results|] == [all[0]] + all[1..][..|rest.results|];
    }
  }

  lemma UpdatesPrefix(results: seq<FileResult>, j: nat)
    requires j <= |results|
    ensures Updates(results)[..j] == Updates(results[..j])
  {
  }

  /** The consumer receives the prefix of the attempted messages that its receiver accepts. */
  lemma RunEvents(files: seq<RegionPath>, maxInhabitedTime: USize, host: Host)
    requires host.sizeBefore.Some? && SizesOrdered(host.sizeBefore, host.sizeAfter)
    ensures var run := RunFiles(files, maxInhabitedTime, host);
      var attempted := Protocol(|files|, run.results, run.report);
      run.events == attempted[..Window(host.receiver, 0, |attempted|)]
  {
    var rx := host.receiver;
    DispatchDelivery(files, maxInhabitedTime, rx, 1);
    var d := DispatchFiles(files, maxInhabitedTime, rx, 1);
    var run := RunFiles(files, maxInhabitedTime, host);
    var w := Window(rx, 1, |files|);
    var attempted := Protocol(|files|, run.results, run.report);
    var tail := if run.report.Some? then [Finished(run.report.value)] else [];
    assert attempted == [Starting(|files|)] + Updates(run.results) + tail;
    var seen := Window(rx, 0, |attempted|);
    if !Accepts(rx, 0) {
      assert seen == 0 && w == 0;
      assert run.events == [];
    } else if d.cancelled {
      assert seen == 1 + w;
      UpdatesPrefix(run.results, w);
      assert attempted[..seen] == [Starting(|files|)] + Updates(run.results)[..w];
    } else if Accepts(rx, |files| + 1) {
      assert seen == |attempted|;
      assert run.results[..w] == run.results;
    } else {
      assert seen == |files| + 1;
      assert run.results[..w] == run.results;
      assert attempted[..seen] == [Starting(|files|)] + Updates(run.results);
    }
  }

  /**
   * A report is assembled exactly when every file's event was accepted; it
   * then covers every file, and otherwise exactly one file past the last
   * delivered event was processed.
   */
  lemma RunReport(files: seq<RegionPath>, maxInhabitedTime: USize, host: Host)
    requires host.sizeBefore.Some? && SizesOrdered(host.sizeBefore, host.sizeAfter)
    ensures var run := RunFiles(files, maxInhabitedTime, host);
      && (run.report.Some? <==> |files| == 0 || Accepts(host.receiver, |files|))
      && (run.report.Some? ==> |run.results| == |files|)
      && (run.report.None? ==> |run.results| == Window(host.receiver, 1, |files|) + 1)
  {
    DispatchDelivery(files, maxInhabitedTime, host.receiver, 1);
  }

  /**
   * Running the files follows the protocol: the consumer receives a prefix
   * of `Starting(|files|)`, one event per processed file, and `Finished`;
   * the processed files are a prefix of the file list; a report is
   * assembled exactly when every file's event was accepted, and it counts
   * all files, the sums over the successful results and the freed space;
   * otherwise exactly one file past the last delivered event was processed.
   */
  lemma RunFollowsProtocol(files: seq<RegionPath>, maxInhabitedTime: USize, host: Host)
    requires host.sizeBefore.Some? && SizesOrdered(host.sizeBefore, host.sizeAfter)
    ensures var run := RunFiles(files, maxInhabitedTime, host);
      var rx := host.receiver;
      var attempted := Protocol(|files|, run.results, run.report);
      && run.results == ResultsOf(files, maxInhabitedTime)[..|run.results|]
      && (run.report.Some? <==> |files| == 0 || Accepts(rx, |files|))
      && (run.report.Some? ==> |run.results| == |files|)
      && (run.report.None? ==> |run.results| == Window(rx, 1, |files|) + 1)
      && (run.report.Some? ==> run.report.value == Report(
            host.sizeBefore.value - host.sizeAfter.GetOr(0),
            |files|,
            SumOk(run.results, ChunksOf),
            SumOk(run.results, DeletedOf)))
      && run.events == attempted[..Window(rx, 0, |attempted|)]
  {
    DispatchResults(files, maxInhabitedTime, host.receiver, 1);
    RunReport(files, maxInhabitedTime, host);
    RunEvents(files, maxInhabitedTime, host);
  }

  /** A successful `execute` runs exactly the collected files with the threshold multiplied by 20. */
  lemma ExecuteRunsCollectedFiles(config: Config, world: World, host: Host)
    requires SizesOrdered(host.sizeBefore, host.sizeAfter)
    requires Execute(config, world, host).Success?
    ensures Execute(config, world, host).value
         == RunFiles(CollectRegionFiles(world.folders).value, ScaleThreshold(config.maxInhabitedTime), host)
  {
  }

  // ---------------------------------------------------------------------
  // Consequences for the consumer
  // ---------------------------------------------------------------------

  lemma {:induction false} ResultsInUpdates(results: seq<FileResult>)
    ensures ResultsIn(Updates(results)) == results
    decreases |results|
  {
    if |results| > 0 {
      assert Updates(results)[1..] == Updates(results[1..]);
      ResultsInUpdates(results[1..]);
    }
  }

  lemma {:induction false} ResultsInAppend(a: seq<Update>, b: seq<Update>)
    ensures ResultsIn(a + b) == ResultsIn(a) + ResultsIn(b)
    decreases |a|
  {
    if |a| == 0 {
      assert a + b == b;
    } else {
      assert (a + b)[0] == a[0];
      assert (a + b)[1..] == a[1..] + b;
      ResultsInAppend(a[1..], b);
    }
  }

  /** The consumer's first event, if any, is `Starting(|files|)`, and it receives at most one event per file. */
  lemma StartingFirst(files: seq<RegionPath>, maxInhabitedTime: USize, host: Host)
    requires host.sizeBefore.Some? && SizesOrdered(host.sizeBefore, host.sizeAfter)
    ensures var run := RunFiles(files, maxInhabitedTime, host);
      && (|run.events| > 0 ==> run.events[0] == Starting(|files|))
      && |ResultsIn(run.events)| <= |files|
  {
    RunEvents(files, maxInhabitedTime, host);
    var run := RunFiles(files, maxInhabitedTime, host);
    var attempted := Protocol(|files|, run.results, run.report);
    var n := Window(host.receiver, 0, |attempted|);
    var head := [Starting(|files|)];
    var tail := if run.report.Some? then [Finished(run.report.value)] else [];
    assert attempted == head + Updates(run.results) + tail;
    if n > 0 {
      assert run.events[0] == attempted[0];
    }
    ResultsInPrefix(|files|, run.results, tail, n);
  }

  /** Extracting results from a prefix of `Starting`, the per-file events and a tail without results. */
  lemma ResultsInPrefix(total: nat, results: seq<FileResult>, tail: seq<Update>, n: nat)
    requires |tail| <= 1 && (|tail| == 1 ==> tail[0].Finished?)
    requires n <= 1 + |results| + |tail|
    ensures var attempted := [Starting(total)] + Updates(results) + tail;
      && ResultsIn(attempted[..n]) == (if n == 0 then [] else results[..if n - 1 <= |results| then n - 1 else |results|])
  {
    var head: seq<Update> := [Starting(total)];
    var attempted := head + Updates(results) + tail;
    assert ResultsIn(head) == [];
    if n == 0 {
      assert attempted[..n] == [];
    } else if n <= 1 + |results| {
      UpdatesPrefix(results, n - 1);
      assert attempted[..n] == head + Updates(results[..n - 1]);
      ResultsInAppend(head, Updates(results[..n - 1]));
      ResultsInUpdates(results[..n - 1]);
    } else {
      assert attempted[..n] == attempted;
      ResultsInAppend(head + Updates(results), tail);
      ResultsInAppend(head, Updates(results));
      ResultsInUpdates(results);
      assert ResultsIn(tail) == [] by {
        assert tail == [tail[0]];
      }
      assert results[..|results|] == results;
    }
  }

  /**
   * `Finished` reaches the consumer only as the last event, only after an
   * event for every file, and with totals equal to what the consumer gets
   * by summing the successful results it received.
   */
  lemma FinishedReport(files: seq<RegionPath>, maxInhabitedTime: USize, host: Host)
    requires host.sizeBefore.Some? && SizesOrdered(host.sizeBefore, host.sizeAfter)
    ensures var run := RunFiles(files, maxInhabitedTime, host);
      forall i :: 0 <= i < |run.events| && run.events[i].Finished? ==>
        && i == |run.events| - 1
        && ResultsIn(run.events) == run.results
        && |run.results| == |files|
        && run.events[i].report.totalRegions == |files|
        && run.events[i].report.totalChunks == SumOk(ResultsIn(run.events), ChunksOf)
        && run.events[i].report.totalDeletedChunks == SumOk(ResultsIn(run.events), DeletedOf)
  {
    RunEvents(files, maxInhabitedTime, host);
    RunReport(files, maxInhabitedTime, host);
    var run := RunFiles(files, maxInhabitedTime, host);
    var attempted := Protocol(|files|, run.results, run.report);
    var n := Window(host.receiver, 0, |attempted|);
    var body := [Starting(|files|)] + Updates(run.results);
    var tail := if run.report.Some? then [Finished(run.report.value)] else [];
    assert attempted == body + tail;
    NoFinishedBeforeEnd(|files|, run.results);
    if n == |attempted| && run.report.Some? {
      ResultsInPrefix(|files|, run.results, tail, n);
      assert attempted[..n] == attempted;
      assert run.results[..|run.results|] == run.results;
    }
    forall i | 0 <= i < |run.events| && i < |body| ensures !run.events[i].Finished? {
      assert run.events[i] == body[i];
    }
  }

  /** Only the final event of the protocol can be `Finished`. */
  lemma NoFinishedBeforeEnd(total: nat, results: seq<FileResult>)
    ensures var body := [Starting(total)] + Updates(results);
      forall i :: 0 <= i < |body| ==> !body[i].Finished?
  {
    var body := [Starting(total)] + Updates(results);
    forall i | 0 < i < |body| ensures !body[i].Finished? {
      assert body[i] == Updates(results)[i - 1];
    }
  }

  /**
   * A consumer that drops the receiver before the last file's event was
   * sent never sees `Finished`; when there are files, no report is
   * assembled and the files processed are those whose events were
   * delivered plus the one whose send was refused.
   */
  lemma Cancellation(files: seq<RegionPath>, maxInhabitedTime: USize, host: Host)
    requires host.sizeBefore.Some? && SizesOrdered(host.sizeBefore, host.sizeAfter)
    requires host.receiver.dropsAfter.Some? && host.receiver.dropsAfter.value <= |files|
    ensures var run := RunFiles(files, maxInhabitedTime, host);
      var k := host.receiver.dropsAfter.value;
      && (forall i :: 0 <= i < |run.events| ==> !run.events[i].Finished?)
      && (|files| > 0 ==> run.report.None? && |run.results| == (if k == 0 then 1 else k))
  {
    RunReport(files, maxInhabitedTime, host);
    RunEvents(files, maxInhabitedTime, host);
    var run := RunFiles(files, maxInhabitedTime, host);
    var attempted := Protocol(|files|, run.results, run.report);
    if |files| == 0 {
      assert Window(host.receiver, 0, |attempted|) == 0;
    } else {
      assert run.report.None?;
      assert attempted == [Starting(|files|)] + Updates(run.results);
      forall i | 0 <= i < |run.events| ensures !run.events[i].Finished? {
        assert run.events[i] == attempted[i];
        if i > 0 {
          assert attempted[i] == Updates(run.results)[i - 1];
        }
      }
    }
  }
}
