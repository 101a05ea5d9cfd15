/** One cycle of the background sampler: read every measurement, compute the
    disk summary, the rates and the process ranking, and replace the published
    snapshot. The measurements themselves come from the operating system and
    enter the model as a Sample. */
module Collector {
  import opened Wrappers
  import opened Rates
  import opened Processes
  import opened DiskSummary

  /** Virtual memory: percentage used, used and total bytes. */
  datatype RamStats = RamStats(percent: real, used: int, total: int)

  /** What the GPU library reports for one GPU; load is a fraction of 1. */
  datatype GpuInfo = GpuInfo(load: real, memoryUsed: real, memoryTotal: real, temperature: real)

  /** The GPU figures of a snapshot; load is a percentage. */
  datatype GpuStats = GpuStats(found: bool, load: real, memoryUsed: real, memoryTotal: real, temperature: real)

  /** The snapshot the sampler publishes for the renderer. */
  datatype Snapshot = Snapshot(
    cpu: real,
    ram: RamStats,
    gpu: GpuStats,
    diskText: seq<DiskLine>,
    diskIo: DiskRate,
    netIo: NetRate,
    processes: seq<ProcRow>)

  /** Everything one cycle reads from the system. gpus is None when the GPU
      query raised; procs holds None for each process whose information read failed. */
  datatype Sample = Sample(
    cpuPercent: real,
    ram: RamStats,
    gpus: Option<seq<GpuInfo>>,
    partitions: seq<Partition>,
    time: real,
    disk: DiskCounters,
    net: NetCounters,
    procs: seq<Option<ProcInfo>>)

  /** The GPU figures when no GPU is available. */
  const NoGpu := GpuStats(false, 0.0, 0.0, 0.0, 0.0)

  /** The snapshot published before the first cycle completes. */
  const InitialStats := Snapshot(0.0, RamStats(0.0, 0, 0), NoGpu, [], DiskRate(0.0, 0.0), NetRate(0.0, 0.0, 0.0, 0.0), [])

  /** The GPU figures: the first GPU's, with its load as a percentage, when the
      query succeeded and found one; otherwise "not found" with every figure zero. */
  function GpuStatsOf(gpus: Option<seq<GpuInfo>>): (g: GpuStats)
    ensures g.found <==> gpus.Some? && gpus.value != []
    ensures !g.found ==> g == NoGpu
    ensures g.found ==>
      && g.load == gpus.value[0].load * 100.0
      && g.memoryUsed == gpus.value[0].memoryUsed
      && g.memoryTotal == gpus.value[0].memoryTotal
      && g.temperature == gpus.value[0].temperature
  {
    match gpus
    case Some(list) =>
      if list == [] then NoGpu
      else GpuStats(true, list[0].load * 100.0, list[0].memoryUsed, list[0].memoryTotal, list[0].temperature)
    case None => NoGpu
  }

  /** Whether a cycle over these processes reaches its publication: the
      normalisation step raises, aborting the cycle, only for a missing or zero
      core count with at least one process to normalise. */
  predicate Publishes(procs: seq<Option<ProcInfo>>, cpuCount: Option<nat>)
  {
    Normalise(TopProcesses(Readable(procs)), cpuCount).Some?
  }

  /** The background sampler. */
  class DataCollector {
    const rates: RateState
    const cpuCount: Option<nat>
    var stats: Snapshot

    /** Start-up: the first counter readings, the start time and the core count. */
    constructor (disk: DiskCounters, net: NetCounters, time: real, cpuCount: Option<nat>)
      ensures fresh(rates)
      ensures rates.prevDisk == disk && rates.prevNet == net && rates.prevTime == time
      ensures this.cpuCount == cpuCount && stats == InitialStats
    {
      rates := new RateState(disk, net, time);
      this.cpuCount := cpuCount;
      stats := InitialStats;
    }

    /** One sampling cycle. The rate state always advances to the sample (its
        update comes before the step of the model that can raise); the snapshot is replaced
        exactly when the cycle completes, and otherwise the previous one stays. */
    method Cycle(s: Sample) returns (published: bool)
      modifies this, rates
      ensures rates.prevDisk == s.disk && rates.prevNet == s.net && rates.prevTime == s.time
      ensures published <==> Publishes(s.procs, cpuCount)
      ensures !published ==> stats == old(stats)
      ensures published ==>
        var dt := Elapsed(old(rates.prevTime), s.time);
        stats == Snapshot(
          s.cpuPercent, s.ram, GpuStatsOf(s.gpus), Summary(s.partitions),
          DiskRateOf(old(rates.prevDisk), s.disk, dt),
          NetRateOf(old(rates.prevNet), s.net, dt),
          Normalise(TopProcesses(Readable(s.procs)), cpuCount).value)
    {
      var gpuStats := GpuStatsOf(s.gpus);
      var diskText := BuildSummary(s.partitions);
      var diskIo, netIo := rates.Step(s.disk, s.net, s.time);
      var top := TopProcesses(Readable(s.procs));
      var procList := Normalise(top, cpuCount);
      if procList.None? {
        return false;
      }
      stats := Snapshot(s.cpuPercent, s.ram, gpuStats, diskText, diskIo, netIo, procList.value);
      published := true;
    }
  }

  /** With a known, non-zero core count every cycle publishes. */
  lemma KnownCoreCountPublishes(procs: seq<Option<ProcInfo>>, c: nat)
    requires c != 0
    ensures Publishes(procs, Some(c))
  {
  }

  /** Without a core count a cycle publishes exactly when no process could be read. */
  lemma UnknownCoreCountPublishesOnlyWithoutProcesses(procs: seq<Option<ProcInfo>>)
    ensures Publishes(procs, None) <==> forall p :: Some(p) !in procs
  {
    var ps := Readable(procs);
    if ps != [] {
      assert ps[0] in ps;
    }
  }
}
