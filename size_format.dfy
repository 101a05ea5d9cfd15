/** The dashboard's human-readable byte formatter, `get_size`: it divides a byte
    count by 1024 until it drops below 1024 and reports it with the unit reached.
    The formatted text (two decimals, the unit letter, the suffix) is kept abstract:
    the model returns the scaled value and the index of the unit. */
module SizeFormat {
  import opened Wrappers

  /** The unit prefixes the formatter tries, in order: bytes, kilo, mega, giga, tera, peta. */
  const Units: seq<string> := ["", "K", "M", "G", "T", "P"]

  /** The base of every unit step. */
  const Factor := 1024.0

  /** A formatted size: the scaled value and the index of its unit in Units. */
  datatype Scaled = Scaled(value: real, unit: nat)

  /** 1024 raised to the power k, the size of one unit k. */
  function Pow1024(k: nat): (p: real)
    ensures p >= 1.0
  {
    if k == 0 then 1.0 else 1024.0 * Pow1024(k - 1)
  }

  /** Unit k fits a byte count when the count is below 1024^(k+1), that is,
      when the count divided k times by 1024 is below 1024. */
  predicate Fits(bytes: real, k: nat)
  {
    bytes < Pow1024(k + 1)
  }

  /** s stands for the byte count: its value times its unit's size gives the count back. */
  predicate Represents(s: Scaled, bytes: real)
  {
    s.value * Pow1024(s.unit) == bytes
  }

  /** What the formatter's loop yields once it has reached unit k with the
      value b (the byte count already divided k times). */
  function ScanFrom(b: real, k: nat): Option<Scaled>
    decreases |Units| - k
  {
    if k >= |Units| then None
    else if b < Factor then Some(Scaled(b, k))
    else ScanFrom(b / Factor, k + 1)
  }

  /** The formatter's answer for a byte count: None when the loop exhausts the units. */
  function ScaledSize(bytes: real): Option<Scaled>
  {
    ScanFrom(bytes, 0)
  }

  /** The loop itself: divide until the value is below 1024 or the units run out. */
  method GetSize(bytes: real) returns (r: Option<Scaled>)
    ensures r == ScaledSize(bytes)
    ensures r.None? <==> bytes >= Pow1024(|Units|)
  {
    ScaledSizeIsFirstFit(bytes);
    var b := bytes;
    var k := 0;
    while k < |Units|
      invariant 0 <= k <= |Units|
      invariant ScanFrom(b, k) == ScaledSize(bytes)
    {
      if b < Factor {
        return Some(Scaled(b, k));
      }
      b := b / Factor;
      k := k + 1;
    }
    return None;
  }

  lemma {:induction false} Pow1024Grows(j: nat, k: nat)
    requires j <= k
    ensures Pow1024(j) <= Pow1024(k)
    decreases k - j
  {
    if j < k {
      Pow1024Grows(j, k - 1);
    }
  }

  /** The loop from unit k on, with b the count scaled to unit k and no
      earlier unit fitting, finds the first unit that fits, or none exactly when
      the count is at least 1024^6. */
  lemma {:induction false} ScanFromIsFirstFit(bytes: real, b: real, k: nat)
    requires k <= |Units|
    requires Represents(Scaled(b, k), bytes)
    requires forall j :: 0 <= j < k ==> !Fits(bytes, j)
    ensures FirstFit(bytes, k, ScanFrom(b, k))
    decreases |Units| - k
  {
    if k == |Units| {
      assert !Fits(bytes, k - 1);
    } else if b < Factor {
      ScaleStep(bytes, b, k);
      Pow1024Grows(k + 1, |Units|);
    } else {
      ScaleStep(bytes, b, k);
      ScanFromIsFirstFit(bytes, b / Factor, k + 1);
    }
  }

  /** r is what a first-fit search from unit k must answer for the count:
      nothing exactly when the count is at least 1024^6, otherwise a unit from k
      on that fits, with no unit before it fitting, and the count scaled to it. */
  predicate FirstFit(bytes: real, k: nat, r: Option<Scaled>)
  {
    && (r.None? <==> bytes >= Pow1024(|Units|))
    && (r.Some? ==>
          && k <= r.value.unit < |Units|
          && Represents(r.value, bytes)
          && Fits(bytes, r.value.unit)
          && forall j :: 0 <= j < r.value.unit ==> !Fits(bytes, j))
  }

  /** With b the count scaled to unit k: unit k fits exactly when b is below
      1024, and b / 1024 is the count scaled to unit k + 1. */
  lemma ScaleStep(bytes: real, b: real, k: nat)
    requires Represents(Scaled(b, k), bytes)
    ensures Fits(bytes, k) <==> b < Factor
    ensures Represents(Scaled(b / Factor, k + 1), bytes)
  {
    var p := Pow1024(k);
    assert Pow1024(k + 1) == 1024.0 * p;
    assert b * p == bytes;
  }

  /** get_size picks the least unit k with bytes < 1024^(k+1) and reports
      bytes / 1024^k; it yields nothing exactly when bytes >= 1024^6. */
  lemma ScaledSizeIsFirstFit(bytes: real)
    ensures ScaledSize(bytes).None? <==> bytes >= Pow1024(|Units|)
    ensures ScaledSize(bytes).Some? ==>
      var s := ScaledSize(bytes).value;
      && s.unit < |Units|
      && Represents(s, bytes)
      && Fits(bytes, s.unit)
      && forall j :: 0 <= j < s.unit ==> !Fits(bytes, j)
  {
    assert Represents(Scaled(bytes, 0), bytes);
    ScanFromIsFirstFit(bytes, bytes, 0);
  }

  /** A count below 1024, negative ones included, is reported unscaled in bytes. */
  lemma SmallCountsAreBytes(bytes: real)
    requires bytes < Factor
    ensures ScaledSize(bytes) == Some(Scaled(bytes, 0))
  {
  }

  /** Worked cases, with the unit prefix followed by the default suffix "B":
      1536 bytes is 1.5 KB, 0 bytes is 0 B, 2^30 bytes is 1 GB. */
  lemma FormatExamples()
    ensures ScaledSize(1536.0) == Some(Scaled(1.5, 1)) && Units[1] + "B" == "KB"
    ensures ScaledSize(0.0) == Some(Scaled(0.0, 0)) && Units[0] + "B" == "B"
    ensures ScaledSize(1073741824.0) == Some(Scaled(1.0, 3)) && Units[3] + "B" == "GB"
  {
    assert ScanFrom(1536.0, 0) == ScanFrom(1.5, 1);
    assert ScanFrom(1073741824.0, 0) == ScanFrom(1048576.0, 1) == ScanFrom(1024.0, 2) == ScanFrom(1.0, 3);
  }
}
