/** The rolling buffers behind a live chart: each is a bounded double-ended
    queue of max_points values that starts as max_points zeros and, on every
    append, drops its oldest value. The second buffer is appended to only when
    the chart has a second line and a second value is supplied. */
module Charts {
  import opened Wrappers

  /** n zeros, the initial contents of a buffer. */
  function Zeros(n: nat): seq<real>
  {
    seq(n, _ => 0.0)
  }

  /** A bounded queue after appending v: the oldest value drops out and v
      comes in last. A queue bounded to length zero stays empty. */
  function Shift(buf: seq<real>, v: real): (r: seq<real>)
    ensures |r| == |buf|
    ensures |buf| > 0 ==> r[|r| - 1] == v && r[..|r| - 1] == buf[1..]
  {
    if buf == [] then [] else buf[1..] + [v]
  }

  /** The window of a history: the zeros the buffer starts with followed by
      every value appended, less as many values from the front as were appended. */
  function Window(n: nat, history: seq<real>): seq<real>
  {
    (Zeros(n) + history)[|history|..]
  }

  /** Appending to a buffer that shows a history's window shows the window of
      the history extended by the new value. */
  lemma WindowShift(n: nat, history: seq<real>, v: real)
    ensures Shift(Window(n, history), v) == Window(n, history + [v])
  {
    var all := Zeros(n) + history;
    assert Zeros(n) + (history + [v]) == all + [v];
    var w := all[|history|..];
    if w != [] {
      assert w[1..] + [v] == (all + [v])[|history| + 1..];
    }
  }

  /** Once max_points values have been appended, the buffer holds exactly the
      last max_points of them, oldest first. */
  lemma WindowShowsLatest(n: nat, history: seq<real>)
    requires n <= |history|
    ensures Window(n, history) == history[|history| - n..]
  {
    var all := Zeros(n) + history;
    assert all[|history|..] == history[|history| - n..] by {
      forall i | 0 <= i < n ensures all[|history|..][i] == history[|history| - n..][i] {
        assert all[|history| + i] == history[|history| + i - n];
      }
    }
  }

  /** A live chart's two data buffers. */
  class LiveGraph {
    const maxPoints: nat
    var yData: seq<real>
    var yData2: seq<real>
    var hasSecondLine: bool
    /** Every value appended to each buffer since the chart was made. */
    ghost var history: seq<real>
    ghost var history2: seq<real>

    /** Each buffer has max_points values and shows the window of its history. */
    ghost predicate Valid()
      reads this
    {
      && |yData| == maxPoints && yData == Window(maxPoints, history)
      && |yData2| == maxPoints && yData2 == Window(maxPoints, history2)
    }

    /** A chart starts with max_points zeros in both buffers and one line. */
    constructor (maxPoints: nat)
      ensures Valid()
      ensures this.maxPoints == maxPoints && !hasSecondLine
      ensures yData == Zeros(maxPoints) && yData2 == Zeros(maxPoints)
      ensures history == [] && history2 == []
    {
      this.maxPoints := maxPoints;
      yData := Zeros(maxPoints);
      yData2 := Zeros(maxPoints);
      hasSecondLine := false;
      history := [];
      history2 := [];
      assert Zeros(maxPoints) + [] == Zeros(maxPoints);
    }

    /** Turns on the second line; the buffers are untouched. */
    method AddSecondLine()
      requires Valid()
      modifies this
      ensures Valid() && hasSecondLine
      ensures yData == old(yData) && yData2 == old(yData2)
      ensures history == old(history) && history2 == old(history2)
    {
      hasSecondLine := true;
    }

    /** Appends a value to the first buffer and, when the chart has a second
        line and a second value is given, that value to the second buffer. */
    method UpdateGraph(newValue: real, newValue2: Option<real>)
      requires Valid()
      modifies this
      ensures Valid() && hasSecondLine == old(hasSecondLine)
      ensures yData == Shift(old(yData), newValue) && history == old(history) + [newValue]
      ensures if old(hasSecondLine) && newValue2.Some?
        then yData2 == Shift(old(yData2), newValue2.value) && history2 == old(history2) + [newValue2.value]
        else yData2 == old(yData2) && history2 == old(history2)
    {
      WindowShift(maxPoints, history, newValue);
      yData := Shift(yData, newValue);
      history := history + [newValue];
      if hasSecondLine && newValue2.Some? {
        WindowShift(maxPoints, history2, newValue2.value);
        yData2 := Shift(yData2, newValue2.value);
        history2 := history2 + [newValue2.value];
      }
    }
  }
}
