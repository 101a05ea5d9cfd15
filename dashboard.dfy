/** The renderer's process table: ten rows of three cells each (pid, name,
    CPU). Row i shows process i of the snapshot when there is one; every other
    row shows a dash in all three cells. Cell text is kept abstract. */
module Dashboard {
  import opened Wrappers
  import opened Processes

  /** What a row's three cells show. */
  datatype RowText = Shown(pid: int, name: string, cpu: real) | Dashes

  /** The number of rows in the table. */
  const RowCount := 10

  /** What row i shows for the snapshot's process list. */
  function RowFor(procs: seq<ProcRow>, i: nat): (t: RowText)
    ensures t.Shown? <==> i < |procs|
    ensures i < |procs| ==> t == Shown(procs[i].pid, procs[i].name, procs[i].cpu)
  {
    if i < |procs| then Shown(procs[i].pid, procs[i].name, procs[i].cpu) else Dashes
  }

  /** The table's rows, each holding the text of its three labels. */
  class ProcessTable {
    const rows: array<RowText>

    /** A new table: ten rows of dashes. */
    constructor ()
      ensures fresh(rows) && rows.Length == RowCount
      ensures forall i :: 0 <= i < rows.Length ==> rows[i] == Dashes
    {
      rows := new RowText[RowCount](_ => Dashes);
    }

    /** Refills every row from the snapshot's process list. */
    method Fill(procs: seq<ProcRow>)
      modifies rows
      ensures forall i :: 0 <= i < rows.Length ==> rows[i] == RowFor(procs, i)
    {
      for i := 0 to rows.Length
        invariant forall k :: 0 <= k < i ==> rows[k] == RowFor(procs, k)
      {
        if i < |procs| {
          var p := procs[i];
          rows[i] := Shown(p.pid, p.name, p.cpu);
        } else {
          rows[i] := Dashes;
        }
      }
    }
  }

  /** A ranked snapshot never has more processes than rows, so every listed
      process gets a row, in ranking order, and only the rows past the list are dashes. */
  lemma EveryRankedProcessIsShown(ps: seq<ProcInfo>, cpuCount: Option<nat>, i: nat)
    requires Normalise(TopProcesses(ps), cpuCount).Some?
    requires i < RowCount
    ensures var procs := Normalise(TopProcesses(ps), cpuCount).value;
      && |procs| <= RowCount
      && (RowFor(procs, i) == Dashes <==> i >= |procs|)
      && (i < |procs| ==> RowFor(procs, i).pid == TopProcesses(ps)[i].pid)
  {
  }
}
