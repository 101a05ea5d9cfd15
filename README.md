# System monitor dashboard: a verified model of its sampling core

The dashboard polls the host once a second from a background thread
(`DataCollector`) and renders the latest snapshot in a window
(`SystemDashboard`) with scrolling charts (`LiveGraph`). This project models
the logic inside it that does more than call a library or lay out a widget:

- `SizeFormat`: the byte formatter `get_size`, which divides by 1024 until the
  value is below 1024 and reports it in the unit reached (`""`, K, M, G, T, P).
  `SystemDashboard.get_size` (desktop_app.py:396-401) is the same code as
  `DataCollector.get_size` (desktop_app.py:88-93) and is modelled once. The
  model returns the scaled value and the unit index instead of the text.
- `Rates`: the rate state the sampler keeps (previous disk counters, previous
  network counters, previous time) as the class `RateState`, and its `Step`:
  counter differences divided by the elapsed time (one second when that is
  exactly zero), then by 1024 * 1024 for the megabyte figures. Differences are
  signed integers, so a counter that resets gives a negative rate, as in the source.
  Only an interval of exactly zero is replaced: a negative one (the clock
  stepped back) is divided by as it is.
- `Processes`: the readable processes, the stable descending sort by raw CPU
  percent (`sorted(..., reverse=True)` keeps ties in listing order), the first
  ten, and the division of each CPU percent by the logical core count.
- `DiskSummary`: the loop that builds the disk-space text, one line per
  partition, skipping a partition whose usage read fails or whose total is
  zero (the percentage division raises and the loop continues).
- `Charts`: the two bounded deques of a `LiveGraph`, each starting as
  `max_points` zeros and dropping its oldest value on every append; the second
  is appended to only when the chart has a second line and a second value.
  A ghost history of all appended values shows what the buffer holds: the last
  `max_points` values appended, padded in front with the initial zeros.
- `Collector`: one iteration of `DataCollector.run` as `DataCollector.Cycle`.
  The measurements arrive as a `Sample`; the GPU query may fail (`None`), as
  may each partition's usage read and each process's information read. The
  rate state is updated before the process normalisation, which is the step
  of the model that can raise: `psutil.cpu_count` may return `None`, and dividing by it
  raises when there is a process to divide for. Such a cycle is aborted by the
  outer `except`: the rate state has advanced but the snapshot is not replaced.
- `Dashboard`: the renderer's ten-row process table, refilled from each
  snapshot: row i shows process i, or a dash in every cell past the list.

Every operating-system query (psutil, GPUtil, shutil, the clock) is an input
of the model, not something it computes. Reals stand for the source's floats.
`get_size` yields `None` for 1024^6 bytes and above, because its loop runs out
of units without returning; the model keeps that outcome.

## Model

| member | source | states |
|---|---|---|
| `SizeFormat.GetSize` | desktop_app.py:88-93 | the loop's answer is the first-fit specification's, and it is None exactly when bytes >= 1024^6 |
| `SizeFormat.ScaledSizeIsFirstFit` | desktop_app.py:88-93 | the reported unit k is the least one with bytes < 1024^(k+1), the value is bytes / 1024^k, and there is no answer exactly when bytes >= 1024^6 |
| `SizeFormat.ScanFromIsFirstFit` | desktop_app.py:90-93 | from any unit k with no earlier unit fitting, the rest of the loop finds the first unit that fits, or none exactly when bytes >= 1024^6 |
| `SizeFormat.SmallCountsAreBytes` | desktop_app.py:90-92 | any count below 1024, negative ones included, is reported unscaled in unit 0 |
| `SizeFormat.FormatExamples` | desktop_app.py:88-93 | 1536 bytes is 1.5 KB, 0 bytes is 0 B, 2^30 bytes is 1 GB, the label being the unit prefix followed by the default suffix "B" |
| `Rates.Elapsed` | desktop_app.py:137-139 | the interval is never zero: the time since the previous sample, or exactly 1 when that is zero |
| `Rates.PerSecond` | desktop_app.py:143-144 | a rate times its interval is the counter's (signed) change |
| `Rates.ToMegabytes` | desktop_app.py:146-147 | a megabyte figure times 1048576 is the bytes-per-second figure |
| `Rates.DiskRateOf` | desktop_app.py:143-148 | each disk figure, times 1048576 and the interval, is its counter's signed change since the previous sample |
| `Rates.NetRateOf` | desktop_app.py:153-160 | sent and recv times the interval are their counters' signed changes, and up/down megabytes times 1048576 are sent and recv |
| `Rates.RateSign` | desktop_app.py:143-154 | over a forward interval a rate is negative exactly when its counter went backwards and zero exactly when it did not move |
| `Rates.AccountedIsTotalChange` | desktop_app.py:137-162 | over any run of samples, resets and clock steps included, the rates times their intervals add up to the counter's total change |
| `Rates.RateState.constructor` | desktop_app.py:83-85 | the rate state starts from the counters and time read at start-up |
| `Rates.RateState.Step` | desktop_app.py:137-162 | the disk and network rates are those of the previous and current counters over the elapsed interval, and afterwards the previous counters and time are the current ones and nothing else changes |
| `Processes.Readable` | desktop_app.py:165-170 | the kept processes are exactly those whose information read succeeded, and no more of them than were listed (order and repeats are stated by ReadableAppend and ReadableSingle) |
| `Processes.ReadableAppend` | desktop_app.py:166-168 | the readable processes of two runs of the listing are those of each run, concatenated: kept in listing order, with repeats kept |
| `Processes.ReadableSingle` | desktop_app.py:167-170 | a process whose read succeeds is appended, one whose read fails is skipped |
| `Processes.InsertDesc` | desktop_app.py:172 | inserting a process adds exactly that process to the list |
| `Processes.InsertDescSorted` | desktop_app.py:172 | inserting into a descending list keeps it descending |
| `Processes.SortDesc` | desktop_app.py:172 | the sort is a permutation of its input in non-increasing order of raw CPU percent |
| `Processes.InsertDescStable` | desktop_app.py:172 | an inserted process goes in front of its ties and disturbs no other tie group |
| `Processes.SortDescStable` | desktop_app.py:172 | the sort is stable: processes with equal CPU percent keep their listing order |
| `Processes.TopProcesses` | desktop_app.py:172 | the ranking has min(10, n) processes, is non-increasing by raw CPU percent, holds only input processes and is the head of the stable sort |
| `Processes.TopProcessesAreHighest` | desktop_app.py:172 | every process left out of the ranking has a CPU percent no greater than any retained one |
| `Processes.DroppedIsSortedTail` | desktop_app.py:172 | the processes left out of the ranking are exactly the sorted listing past the first ten |
| `Processes.TopProcessesStable` | desktop_app.py:172 | the retained processes of each CPU percent are the first ones of that percent in the listing, in order |
| `Processes.NormaliseOne` | desktop_app.py:177-182 | a row keeps the process's pid and name, and its cpu times the core count is the raw percent |
| `Processes.Normalise` | desktop_app.py:174-182 | normalisation fails exactly for a missing or zero core count with a process to divide; otherwise it keeps the length and order and row i is process i normalised |
| `Processes.NormaliseKeepsOrder` | desktop_app.py:175-182 | normalised CPU figures of a ranked list never increase down the list |
| `Processes.NormaliseExample` | desktop_app.py:177 | 400 percent on 8 cores is shown as 50 percent |
| `DiskSummary.LineFor` | desktop_app.py:131-132 | a line shows the partition's device and mount point, a percentage that times the total is 100 times the used bytes, and the total formatted by get_size |
| `DiskSummary.Summary` | desktop_app.py:127-134 | the summary has exactly one line per partition read with a non-zero total |
| `DiskSummary.BuildSummary` | desktop_app.py:126-134 | the loop's lines are the summary of the partitions in order |
| `DiskSummary.SummaryAppend` | desktop_app.py:127-134 | the summary of two runs of partitions is the two summaries concatenated |
| `DiskSummary.SkippedPartitionChangesNothing` | desktop_app.py:129-134 | a partition whose read fails or whose total is zero leaves the lines of all others exactly as without it |
| `DiskSummary.SummaryLines` | desktop_app.py:128-134 | every line belongs to a partition that was read with a non-zero total, and every such partition has its line |
| `Charts.Shift` | desktop_app.py:54 | an append keeps the length; the new value is last and the rest is the old buffer without its first value |
| `Charts.WindowShift` | desktop_app.py:22-23 | appending to a buffer that shows a history's window shows the extended history's window |
| `Charts.WindowShowsLatest` | desktop_app.py:22-23 | once max_points values have been appended, the buffer holds exactly the last max_points of them |
| `Charts.LiveGraph.constructor` | desktop_app.py:16-24 | both buffers start as max_points zeros, with no second line |
| `Charts.LiveGraph.AddSecondLine` | desktop_app.py:48-51 | the chart gets a second line and its buffers are unchanged |
| `Charts.LiveGraph.UpdateGraph` | desktop_app.py:53-59 | both buffers keep length max_points; the first gets the value; the second changes only with a second line and a second value |
| `Collector.GpuStatsOf` | desktop_app.py:110-123 | the GPU is found exactly when the query succeeds with at least one GPU, and then load is the first GPU's fraction times 100; otherwise every figure is zero |
| `Collector.DataCollector.constructor` | desktop_app.py:69-86 | the sampler starts from the start-up counters and time, the core count and the all-zero snapshot |
| `Collector.DataCollector.Cycle` | desktop_app.py:95-199 | the rate state always advances to the sample; the snapshot is replaced, field by field from the sample, exactly when normalisation succeeds, and a failing GPU query or partition never stops it |
| `Collector.KnownCoreCountPublishes` | desktop_app.py:174-182 | with a known non-zero core count every cycle publishes |
| `Collector.UnknownCoreCountPublishesOnlyWithoutProcesses` | desktop_app.py:165-182 | without a core count a cycle publishes exactly when no process was read |
| `Dashboard.RowFor` | desktop_app.py:441-450 | row i shows process i exactly when i is below the list length, and a dash otherwise |
| `Dashboard.ProcessTable.constructor` | desktop_app.py:351-366 | the table starts as ten rows of dashes |
| `Dashboard.ProcessTable.Fill` | desktop_app.py:441-450 | after filling, every row shows what RowFor gives for the process list |
| `Dashboard.EveryRankedProcessIsShown` | desktop_app.py:441-450 | a published process list fits the ten rows, each listed process gets its row in ranking order, and only the rows past the list show dashes |

## Left out

- Widget layout, styling, chart drawing and the sidebar and chart toggles (`SystemDashboard.__init__`, `LiveGraph.__init__` plotting, `toggle_sidebar`, `toggle_graph`, `show_overview`): they only drive a GUI toolkit.
- The chart's y-axis autoscale (`max_val * 1.2`, desktop_app.py:61-64): display scaling of the plot.
- The rest of `update_stats` (progress bars, labels, which chart gets which value and the visibility checks): widget configuration with no logic beyond reading the snapshot.
- The thread, the `running` flag, the lock around the snapshot hand-off, `time.sleep` and `after(1000, ...)`: concurrency and timing. The snapshot is a field that a completed cycle overwrites whole.
- The operating-system queries themselves: they are inputs, and the model assumes each of them returns. In the source, a raise from `cpu_percent`, `virtual_memory`, `disk_partitions` (desktop_app.py:126), `disk_io_counters` (142), `net_io_counters` (152) or `process_iter` (166) aborts the cycle through the outer handler (197), leaving the snapshot as it was; a raising `net_io_counters` in particular leaves the previous disk counters already advanced (149) but the previous network counters and time (161-162) not. Those partial cycles are not modelled.
- A `None` from `psutil.disk_io_counters` or `net_io_counters` (no disks or interfaces) is not modelled; counters are always present.
- A per-process `cpu_percent` of `None` (field denied by the operating system) is not modelled: every readable process has a number.
- The text rendering (`:.2f`, `:.1f`, the f-string lines, the `print` error messages): values and units are kept as tokens.
- Floating-point rounding: reals stand for Python floats, so division by 1024 is exact as modelled; a byte count above 2^53 converted to a float is not rounded in the model.
- debug_disk.py and test_shutil.py are not part of this model: they only print library results.
