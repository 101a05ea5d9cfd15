/** The process ranking of a sampling cycle: the processes whose information
    could be read, a stable sort by raw CPU percent from highest to lowest, the
    first ten, and each retained CPU percent divided by the logical core count. */
module Processes {
  import opened Wrappers

  /** What the process listing reports for one process. */
  datatype ProcInfo = ProcInfo(pid: int, name: string, cpuPercent: real)

  /** A retained process with its CPU percent normalised by the core count. */
  datatype ProcRow = ProcRow(pid: int, name: string, cpu: real)

  /** How many processes the ranking keeps. */
  const TopCount := 10

  /** The processes whose information read succeeded, in listing order. */
  function Readable(infos: seq<Option<ProcInfo>>): (ps: seq<ProcInfo>)
    ensures |ps| <= |infos|
    ensures forall p :: p in ps <==> Some(p) in infos
  {
    if infos == [] then []
    else
      var rest := Readable(infos[1..]);
      assert forall p :: Some(p) in infos ==> infos[0] == Some(p) || Some(p) in infos[1..];
      match infos[0]
      case Some(p) => [p] + rest
      case None => rest
  }

  /** Reading two runs of the listing gives the two runs' readable processes,
      in listing order; a readable process is kept and an unreadable one dropped. */
  lemma {:induction false} ReadableAppend(a: seq<Option<ProcInfo>>, b: seq<Option<ProcInfo>>)
    ensures Readable(a + b) == Readable(a) + Readable(b)
    decreases |a|
  {
    if a == [] {
      assert a + b == b;
    } else {
      assert (a + b)[1..] == a[1..] + b;
      ReadableAppend(a[1..], b);
    }
  }

  /** One listed process contributes itself when its read succeeded and nothing otherwise. */
  lemma ReadableSingle(p: ProcInfo)
    ensures Readable([Some(p)]) == [p]
    ensures Readable([None]) == []
  {
    var none: seq<Option<ProcInfo>> := [None];
    assert [Some(p)][1..] == [] && none[1..] == [];
  }

  /** Raw CPU percent never increases along ps. */
  predicate SortedDesc(ps: seq<ProcInfo>)
  {
    forall i, j :: 0 <= i < j < |ps| ==> ps[i].cpuPercent >= ps[j].cpuPercent
  }

  /** p inserted into s in front of the first element whose CPU percent is no
      greater than p's: ahead of its ties, which come later in the listing. */
  function InsertDesc(p: ProcInfo, s: seq<ProcInfo>): (r: seq<ProcInfo>)
    ensures multiset(r) == multiset(s) + multiset{p}
    decreases |s|
  {
    if s == [] || p.cpuPercent >= s[0].cpuPercent then
      [p] + s
    else
      assert s == [s[0]] + s[1..];
      [s[0]] + InsertDesc(p, s[1..])
  }

  lemma {:induction false} InsertDescSorted(p: ProcInfo, s: seq<ProcInfo>)
    requires SortedDesc(s)
    ensures SortedDesc(InsertDesc(p, s))
    decreases |s|
  {
    if s != [] && p.cpuPercent < s[0].cpuPercent {
      var rest := InsertDesc(p, s[1..]);
      InsertDescSorted(p, s[1..]);
      forall k | 0 <= k < |rest| ensures s[0].cpuPercent >= rest[k].cpuPercent {
        assert rest[k] in multiset(rest);
        if rest[k] != p {
          assert rest[k] in multiset(s[1..]);
          var j :| 0 <= j < |s[1..]| && s[1..][j] == rest[k];
          assert s[j + 1] == rest[k];
        }
      }
      var r := [s[0]] + rest;
      assert forall i, j :: 0 <= i < j < |r| ==> r[i].cpuPercent >= r[j].cpuPercent by {
        forall i, j | 0 <= i < j < |r| ensures r[i].cpuPercent >= r[j].cpuPercent {
          if i == 0 {
            assert r[j] == rest[j - 1];
          } else {
            assert r[i] == rest[i - 1] && r[j] == rest[j - 1];
          }
        }
      }
    }
  }

  /** The stable descending sort the source gets from sorted(..., reverse=True). */
  function SortDesc(ps: seq<ProcInfo>): (r: seq<ProcInfo>)
    ensures multiset(r) == multiset(ps)
    ensures SortedDesc(r)
  {
    if ps == [] then []
    else
      assert ps == [ps[0]] + ps[1..];
      InsertDescSorted(ps[0], SortDesc(ps[1..]));
      InsertDesc(ps[0], SortDesc(ps[1..]))
  }

  /** The processes of ps whose raw CPU percent is c, in order. */
  function WithCpu(ps: seq<ProcInfo>, c: real): seq<ProcInfo>
  {
    if ps == [] then []
    else (if ps[0].cpuPercent == c then [ps[0]] else []) + WithCpu(ps[1..], c)
  }

  lemma {:induction false} WithCpuAppend(a: seq<ProcInfo>, b: seq<ProcInfo>, c: real)
    ensures WithCpu(a + b, c) == WithCpu(a, c) + WithCpu(b, c)
    decreases |a|
  {
    if a == [] {
      assert a + b == b;
    } else {
      var head := if a[0].cpuPercent == c then [a[0]] else [];
      assert (a + b)[0] == a[0];
      assert (a + b)[1..] == a[1..] + b;
      assert WithCpu(a + b, c) == head + WithCpu(a[1..] + b, c);
      WithCpuAppend(a[1..], b, c);
      assert WithCpu(a, c) == head + WithCpu(a[1..], c);
      assert head + (WithCpu(a[1..], c) + WithCpu(b, c)) == (head + WithCpu(a[1..], c)) + WithCpu(b, c);
    }
  }

  /** Inserting p puts it in front of every tie, and moves nothing else
      relative to the elements it ties with. */
  lemma {:induction false} InsertDescStable(p: ProcInfo, s: seq<ProcInfo>, c: real)
    ensures WithCpu(InsertDesc(p, s), c) == (if p.cpuPercent == c then [p] else []) + WithCpu(s, c)
    decreases |s|
  {
    if s == [] || p.cpuPercent >= s[0].cpuPercent {
      assert ([p] + s)[1..] == s;
    } else {
      InsertDescStable(p, s[1..], c);
      assert ([s[0]] + InsertDesc(p, s[1..]))[1..] == InsertDesc(p, s[1..]);
    }
  }

  /** The sort is stable: the processes with any one CPU percent keep their
      listing order. */
  lemma {:induction false} SortDescStable(ps: seq<ProcInfo>, c: real)
    ensures WithCpu(SortDesc(ps), c) == WithCpu(ps, c)
    decreases |ps|
  {
    if ps != [] {
      SortDescStable(ps[1..], c);
      InsertDescStable(ps[0], SortDesc(ps[1..]), c);
    }
  }

  /** The first ten of the stable descending sort. */
  function TopProcesses(ps: seq<ProcInfo>): (top: seq<ProcInfo>)
    ensures |top| == if |ps| < TopCount then |ps| else TopCount
    ensures SortedDesc(top)
    ensures multiset(top) <= multiset(ps)
    ensures top == SortDesc(ps)[..|top|]
  {
    var sorted := SortDesc(ps);
    assert |sorted| == |multiset(sorted)| == |ps|;
    var n := if |sorted| < TopCount then |sorted| else TopCount;
    assert sorted == sorted[..n] + sorted[n..];
    sorted[..n]
  }

  /** The processes of ps that the ranking leaves out. */
  function Dropped(ps: seq<ProcInfo>): multiset<ProcInfo>
  {
    multiset(ps) - multiset(TopProcesses(ps))
  }

  /** The ranking keeps the highest CPU percents: every process left out has
      a CPU percent no greater than any retained one. */
  lemma TopProcessesAreHighest(ps: seq<ProcInfo>)
    ensures forall i, q :: 0 <= i < |TopProcesses(ps)| && q in Dropped(ps) ==>
      TopProcesses(ps)[i].cpuPercent >= q.cpuPercent
  {
    var sorted := SortDesc(ps);
    var top := TopProcesses(ps);
    DroppedIsSortedTail(ps);
    forall i, q | 0 <= i < |top| && q in Dropped(ps) ensures top[i].cpuPercent >= q.cpuPercent {
      SortedTailBelow(sorted, |top|, i, q);
    }
  }

  /** What the ranking leaves out is the tail of the sorted listing. */
  lemma DroppedIsSortedTail(ps: seq<ProcInfo>)
    ensures |TopProcesses(ps)| <= |SortDesc(ps)|
    ensures Dropped(ps) == multiset(SortDesc(ps)[|TopProcesses(ps)|..])
  {
    var sorted := SortDesc(ps);
    var top := TopProcesses(ps);
    var n := |top|;
    assert sorted == top + sorted[n..];
    calc {
      Dropped(ps);
    ==
      multiset(ps) - multiset(top);
    ==
      multiset(sorted) - multiset(top);
    ==
      (multiset(top) + multiset(sorted[n..])) - multiset(top);
    ==
      multiset(sorted[n..]);
    }
  }

  /** In a descending list, the elements after position n are no greater than
      any element before it. */
  lemma SortedTailBelow(sorted: seq<ProcInfo>, n: nat, i: nat, q: ProcInfo)
    requires SortedDesc(sorted) && i < n <= |sorted|
    requires q in multiset(sorted[n..])
    ensures sorted[i].cpuPercent >= q.cpuPercent
  {
    assert q in sorted[n..];
    var j :| 0 <= j < |sorted[n..]| && sorted[n..][j] == q;
    assert sorted[n + j] == q;
  }

  /** Ties keep their listing order in the ranking: the retained processes with
      any one CPU percent are the first of those in the listing. */
  lemma TopProcessesStable(ps: seq<ProcInfo>, c: real)
    ensures WithCpu(TopProcesses(ps), c) <= WithCpu(ps, c)
  {
    var sorted := SortDesc(ps);
    var top := TopProcesses(ps);
    assert sorted == top + sorted[|top|..];
    WithCpuAppend(top, sorted[|top|..], c);
    SortDescStable(ps, c);
  }

  /** One retained process with its CPU percent divided by the core count c:
      pid and name kept, and the figure times c gives the raw percent back. */
  function NormaliseOne(p: ProcInfo, c: nat): (row: ProcRow)
    requires c != 0
    ensures row.pid == p.pid && row.name == p.name
    ensures row.cpu * c as real == p.cpuPercent
  {
    ProcRow(p.pid, p.name, p.cpuPercent / c as real)
  }

  /** The rows the cycle publishes: every retained process normalised, in
      order. The division raises when the count is unknown (None) or zero, but
      only if there is a process to divide for. */
  function Normalise(top: seq<ProcInfo>, cpuCount: Option<nat>): (rows: Option<seq<ProcRow>>)
    ensures rows.Some? <==> top == [] || (cpuCount.Some? && cpuCount.value != 0)
    ensures rows.Some? ==> |rows.value| == |top|
    ensures rows.Some? && top != [] ==>
      forall i :: 0 <= i < |top| ==> rows.value[i] == NormaliseOne(top[i], cpuCount.value)
  {
    if top == [] then Some([])
    else if cpuCount.None? || cpuCount.value == 0 then None
    else
      var rest := Normalise(top[1..], cpuCount);
      Some([NormaliseOne(top[0], cpuCount.value)] + rest.value)
  }

  /** Normalising keeps the ranking's order: the published CPU figures never
      increase down the list. */
  lemma NormaliseKeepsOrder(top: seq<ProcInfo>, cpuCount: Option<nat>)
    requires SortedDesc(top)
    requires Normalise(top, cpuCount).Some?
    ensures var rows := Normalise(top, cpuCount).value;
      forall i, j :: 0 <= i < j < |rows| ==> rows[i].cpu >= rows[j].cpu
  {
    var rows := Normalise(top, cpuCount).value;
    forall i, j | 0 <= i < j < |rows| ensures rows[i].cpu >= rows[j].cpu {
      var c := cpuCount.value;
      assert rows[i] == NormaliseOne(top[i], c) && rows[j] == NormaliseOne(top[j], c);
      DivideKeepsOrder(top[i].cpuPercent, top[j].cpuPercent, c as real);
    }
  }

  lemma DivideKeepsOrder(x: real, y: real, c: real)
    requires c > 0.0 && x >= y
    ensures x / c >= y / c
  {
  }

  /** A process at 400 percent on an eight-core machine is shown at 50 percent. */
  lemma NormaliseExample()
    ensures Normalise([ProcInfo(7, "worker", 400.0)], Some(8)) == Some([ProcRow(7, "worker", 50.0)])
  {
    var top := [ProcInfo(7, "worker", 400.0)];
    assert top[1..] == [];
    assert Normalise(top[1..], Some(8)) == Some([]);
    assert NormaliseOne(top[0], 8) == ProcRow(7, "worker", 50.0);
    assert [NormaliseOne(top[0], 8)] + [] == [ProcRow(7, "worker", 50.0)];
  }
}
