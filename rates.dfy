/** Throughput from cumulative counters: the sampler keeps the previous disk and
    network counters and the previous timestamp, and each cycle divides the
    counter differences by the elapsed time. The differences are signed: a counter
    that resets or wraps between samples gives a negative rate, as in the source. */
module Rates {

  /** Cumulative disk I/O counters, in bytes since boot. */
  datatype DiskCounters = DiskCounters(readBytes: int, writeBytes: int)

  /** Cumulative network I/O counters, in bytes since boot. */
  datatype NetCounters = NetCounters(bytesSent: int, bytesRecv: int)

  /** Disk throughput in megabytes per second. */
  datatype DiskRate = DiskRate(readMbs: real, writeMbs: real)

  /** Network throughput: bytes per second and megabytes per second. */
  datatype NetRate = NetRate(sent: real, recv: real, upMb: real, downMb: real)

  /** Bytes in a megabyte, 1024 * 1024. */
  const BytesPerMegabyte := 1048576.0

  /** The interval a rate is divided by: the time since the previous sample, or
      one second when that is exactly zero. It is never zero. */
  function Elapsed(prevTime: real, currTime: real): (dt: real)
    ensures dt != 0.0
    ensures currTime != prevTime ==> dt == currTime - prevTime
    ensures currTime == prevTime ==> dt == 1.0
  {
    var delta := currTime - prevTime;
    if delta == 0.0 then 1.0 else delta
  }

  /** The per-second rate of a counter over an interval: multiplied back by the
      interval it gives the counter's change. */
  function PerSecond(prev: int, curr: int, dt: real): (rate: real)
    requires dt != 0.0
    ensures rate * dt == (curr - prev) as real
  {
    (curr - prev) as real / dt
  }

  /** A bytes-per-second figure in megabytes per second. */
  function ToMegabytes(bytesPerSec: real): (mbs: real)
    ensures mbs * BytesPerMegabyte == bytesPerSec
  {
    bytesPerSec / BytesPerMegabyte
  }

  /** The disk figures a cycle reports for counters prev and curr over dt. */
  function DiskRateOf(prev: DiskCounters, curr: DiskCounters, dt: real): (rate: DiskRate)
    requires dt != 0.0
    ensures rate.readMbs * BytesPerMegabyte * dt == (curr.readBytes - prev.readBytes) as real
    ensures rate.writeMbs * BytesPerMegabyte * dt == (curr.writeBytes - prev.writeBytes) as real
  {
    DiskRate(ToMegabytes(PerSecond(prev.readBytes, curr.readBytes, dt)),
             ToMegabytes(PerSecond(prev.writeBytes, curr.writeBytes, dt)))
  }

  /** The network figures a cycle reports for counters prev and curr over dt. */
  function NetRateOf(prev: NetCounters, curr: NetCounters, dt: real): (rate: NetRate)
    requires dt != 0.0
    ensures rate.sent * dt == (curr.bytesSent - prev.bytesSent) as real
    ensures rate.recv * dt == (curr.bytesRecv - prev.bytesRecv) as real
    ensures rate.upMb * BytesPerMegabyte == rate.sent && rate.downMb * BytesPerMegabyte == rate.recv
  {
    var sent := PerSecond(prev.bytesSent, curr.bytesSent, dt);
    var recv := PerSecond(prev.bytesRecv, curr.bytesRecv, dt);
    NetRate(sent, recv, ToMegabytes(sent), ToMegabytes(recv))
  }

  /** Over a forward interval, a rate is negative exactly when its counter went
      backwards (a reset or a wrap), and zero exactly when it did not move. */
  lemma RateSign(prev: int, curr: int, dt: real)
    requires dt > 0.0
    ensures PerSecond(prev, curr, dt) < 0.0 <==> curr < prev
    ensures PerSecond(prev, curr, dt) == 0.0 <==> curr == prev
  {
    var rate := PerSecond(prev, curr, dt);
    assert rate * dt == (curr - prev) as real;
    if rate < 0.0 {
      assert rate * dt < 0.0;
    } else if rate > 0.0 {
      assert rate * dt > 0.0;
    }
  }

  /** One sample of a single counter: its value and the time it was taken. */
  datatype Reading = Reading(count: int, time: real)

  /** The bytes accounted for by the rates a sampler reports over a run of
      readings that starts from prevCount at prevTime: each rate times the
      interval it was computed over. */
  function Accounted(prevCount: int, prevTime: real, run: seq<Reading>): real
    decreases |run|
  {
    if run == [] then 0.0
    else
      var dt := Elapsed(prevTime, run[0].time);
      PerSecond(prevCount, run[0].count, dt) * dt + Accounted(run[0].count, run[0].time, run[1..])
  }

  /** Over any run of readings, resets and clock steps included, the reported
      rates account for exactly the counter's total change: none lost, none
      counted twice. */
  lemma {:induction false} AccountedIsTotalChange(prevCount: int, prevTime: real, run: seq<Reading>)
    requires run != []
    ensures Accounted(prevCount, prevTime, run) == (run[|run| - 1].count - prevCount) as real
    decreases |run|
  {
    if |run| > 1 {
      AccountedIsTotalChange(run[0].count, run[0].time, run[1..]);
    }
  }

  /** The sampler's rate state: the previous counters and timestamp. */
  class RateState {
    var prevDisk: DiskCounters
    var prevNet: NetCounters
    var prevTime: real

    /** The state the sampler starts from: the counters and time read at start-up. */
    constructor (disk: DiskCounters, net: NetCounters, time: real)
      ensures prevDisk == disk && prevNet == net && prevTime == time
    {
      prevDisk, prevNet, prevTime := disk, net, time;
    }

    /** One cycle's rate computation: the rates over the time since the previous
        sample, after which the current sample becomes the previous one. */
    method Step(disk: DiskCounters, net: NetCounters, time: real) returns (diskRate: DiskRate, netRate: NetRate)
      modifies this
      ensures diskRate == DiskRateOf(old(prevDisk), disk, Elapsed(old(prevTime), time))
      ensures netRate == NetRateOf(old(prevNet), net, Elapsed(old(prevTime), time))
      ensures prevDisk == disk && prevNet == net && prevTime == time
    {
      var timeDelta := time - prevTime;
      if timeDelta == 0.0 {
        timeDelta := 1.0;
      }

      var readPerSec := (disk.readBytes - prevDisk.readBytes) as real / timeDelta;
      var writePerSec := (disk.writeBytes - prevDisk.writeBytes) as real / timeDelta;
      diskRate := DiskRate(readPerSec / BytesPerMegabyte, writePerSec / BytesPerMegabyte);
      prevDisk := disk;

      var sentPerSec := (net.bytesSent - prevNet.bytesSent) as real / timeDelta;
      var recvPerSec := (net.bytesRecv - prevNet.bytesRecv) as real / timeDelta;
      netRate := NetRate(sentPerSec, recvPerSec, sentPerSec / BytesPerMegabyte, recvPerSec / BytesPerMegabyte);
      prevNet := net;
      prevTime := time;
    }
  }
}
