/** The disk-space text of a sampling cycle: one line per partition whose usage
    could be read, in partition order. A partition whose usage read fails, or
    whose total is zero (the percentage division raises), is skipped without
    affecting the others. Each line is kept as a token holding what it shows. */
module DiskSummary {
  import opened Wrappers
  import opened SizeFormat

  /** Total and used bytes of a mounted file system. */
  datatype Usage = Usage(total: nat, used: nat)

  /** A partition and the outcome of reading its usage (None: the read failed). */
  datatype Partition = Partition(device: string, mountpoint: string, usage: Option<Usage>)

  /** One summary line: device, mount point, percentage used and the formatted total. */
  datatype DiskLine = DiskLine(device: string, mountpoint: string, percent: real, total: Option<Scaled>)

  /** A partition gets a line when its usage was read and its total is not zero. */
  predicate Reported(p: Partition)
  {
    p.usage.Some? && p.usage.value.total != 0
  }

  /** The line shown for a reported partition. */
  function LineFor(p: Partition): (line: DiskLine)
    requires Reported(p)
    ensures line.device == p.device && line.mountpoint == p.mountpoint
    ensures line.percent * p.usage.value.total as real == p.usage.value.used as real * 100.0
    ensures line.total == ScaledSize(p.usage.value.total as real)
  {
    var u := p.usage.value;
    DiskLine(p.device, p.mountpoint, (u.used as real / u.total as real) * 100.0, ScaledSize(u.total as real))
  }

  /** How many partitions of parts are reported. */
  function ReportedCount(parts: seq<Partition>): nat
  {
    if parts == [] then 0
    else ReportedCount(parts[..|parts| - 1]) + (if Reported(parts[|parts| - 1]) then 1 else 0)
  }

  /** The summary of a list of partitions, built from the front as the loop
      does: exactly one line per reported partition. */
  function Summary(parts: seq<Partition>): (lines: seq<DiskLine>)
    ensures |lines| == ReportedCount(parts)
  {
    if parts == [] then []
    else
      var last := parts[|parts| - 1];
      Summary(parts[..|parts| - 1]) + (if Reported(last) then [LineFor(last)] else [])
  }

  /** The loop that accumulates the summary, one partition at a time. */
  method BuildSummary(parts: seq<Partition>) returns (lines: seq<DiskLine>)
    ensures lines == Summary(parts)
  {
    lines := [];
    for i := 0 to |parts|
      invariant lines == Summary(parts[..i])
    {
      assert parts[..i + 1][..i] == parts[..i];
      var p := parts[i];
      if p.usage.Some? {
        var usage := p.usage.value;
        if usage.total != 0 {
          var percent := (usage.used as real / usage.total as real) * 100.0;
          var size := GetSize(usage.total as real);
          lines := lines + [DiskLine(p.device, p.mountpoint, percent, size)];
        }
      }
    }
    assert parts[..|parts|] == parts;
  }

  /** The summary of two runs of partitions is the two summaries, in order. */
  lemma {:induction false} SummaryAppend(a: seq<Partition>, b: seq<Partition>)
    ensures Summary(a + b) == Summary(a) + Summary(b)
    decreases |b|
  {
    if b == [] {
      assert a + b == a;
    } else {
      var n := |b| - 1;
      assert (a + b)[..|a + b| - 1] == a + b[..n];
      assert (a + b)[|a + b| - 1] == b[n];
      SummaryAppend(a, b[..n]);
    }
  }

  /** A partition whose read fails, or whose total is zero, leaves the lines of
      every other partition exactly as they would be without it. */
  lemma SkippedPartitionChangesNothing(a: seq<Partition>, p: Partition, b: seq<Partition>)
    requires !Reported(p)
    ensures Summary(a + [p] + b) == Summary(a + b)
  {
    SummaryAppend(a + [p], b);
    SummaryAppend(a, [p]);
    SummaryAppend(a, b);
    assert [p][..0] == [];
  }

  /** Every line belongs to a reported partition, and every reported partition
      has its line. */
  lemma {:induction false} SummaryLines(parts: seq<Partition>)
    ensures forall k :: 0 <= k < |Summary(parts)| ==>
      exists j :: 0 <= j < |parts| && Reported(parts[j]) && Summary(parts)[k] == LineFor(parts[j])
    ensures forall j :: 0 <= j < |parts| && Reported(parts[j]) ==> LineFor(parts[j]) in Summary(parts)
    decreases |parts|
  {
    if parts == [] {
      assert Summary(parts) == [];
    } else {
      var n := |parts| - 1;
      var init := parts[..n];
      SummaryLines(init);
      var tail := if Reported(parts[n]) then [LineFor(parts[n])] else [];
      assert Summary(parts) == Summary(init) + tail;
      forall k | 0 <= k < |Summary(parts)|
        ensures exists j :: 0 <= j < |parts| && Reported(parts[j]) && Summary(parts)[k] == LineFor(parts[j])
      {
        if k < |Summary(init)| {
          var j :| 0 <= j < |init| && Reported(init[j]) && Summary(init)[k] == LineFor(init[j]);
          assert parts[j] == init[j] && Summary(parts)[k] == Summary(init)[k];
        } else {
          assert Reported(parts[n]) && Summary(parts)[k] == LineFor(parts[n]);
        }
      }
      forall j | 0 <= j < |parts| && Reported(parts[j]) ensures LineFor(parts[j]) in Summary(parts) {
        if j < n {
          assert parts[j] == init[j];
        }
      }
    }
  }
}
