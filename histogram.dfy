/** The colour histograms of the current image (`calculate_histogram`): one
    256-bin count per channel for red, green and blue, a combined count over
    the three channels, and the largest combined bin. Alpha is not counted.

    The loop of the source stops at `size - 4`, so the last pixel is never
    counted; `CalculateAsWritten` keeps that bound and `Calculate` is the
    corrected procedure that counts every pixel. */
module Histogram {
  import opened Bytes

  const BINS: nat := 256

  // ---------------------------------------------------------------------------
  // Specification.

  /** 256 empty bins (the `memset` of each histogram). */
  function Zeros(): (r: seq<nat>)
    ensures |r| == BINS
  {
    seq(BINS, _ => 0)
  }

  /** One more occurrence of the value v. */
  function Bump(bins: seq<nat>, v: byte): (r: seq<nat>)
    requires |bins| == BINS
    ensures |r| == BINS
  {
    bins[v as int := bins[v] + 1]
  }

  /** The bins of channel c (0 red, 1 green, 2 blue) over the first n pixels. */
  function Tally(data: seq<byte>, n: nat, c: nat): (r: seq<nat>)
    requires 4 * n <= |data| && c < 3
    ensures |r| == BINS
  {
    if n == 0 then Zeros() else Bump(Tally(data, n - 1, c), data[4 * (n - 1) + c])
  }

  /** The combined bins over the first n pixels: each pixel adds its red, its
      green and its blue value. */
  function Total(data: seq<byte>, n: nat): (r: seq<nat>)
    requires 4 * n <= |data|
    ensures |r| == BINS
  {
    if n == 0 then Zeros()
    else
      var p := 4 * (n - 1);
      Bump(Bump(Bump(Total(data, n - 1), data[p]), data[p + 1]), data[p + 2])
  }

  /** The values of channel c of the first n pixels, in pixel order. */
  function Channel(data: seq<byte>, n: nat, c: nat): (r: seq<byte>)
    requires 4 * n <= |data| && c < 3
    ensures |r| == n
  {
    seq(n, p requires 0 <= p < n => data[4 * p + c])
  }

  function Sum(s: seq<nat>): nat {
    if s == [] then 0 else Sum(s[..|s| - 1]) + s[|s| - 1]
  }

  /** The largest element of s (0 for no elements), as the loop over the
      combined bins computes it. */
  function MaxOf(s: seq<nat>): nat {
    if s == [] then 0 else
      var m := MaxOf(s[..|s| - 1]);
      if m < s[|s| - 1] then s[|s| - 1] else m
  }

  // ---------------------------------------------------------------------------
  // The histogram state and its procedures.

  class Histograms {
    /** The "calculate histograms" setting. */
    var enabled: bool
    /** Whether the bins describe the current image. */
    var hasHisto: bool
    const red: array<nat>
    const green: array<nat>
    const blue: array<nat>
    const total: array<nat>
    /** The largest combined bin, and the copy the user interface edits. */
    var max: nat
    var maxEdit: nat

    ghost predicate Valid() {
      red.Length == BINS && green.Length == BINS && blue.Length == BINS && total.Length == BINS
      && red != green && red != blue && red != total
      && green != blue && green != total && blue != total
    }

    constructor (enabled: bool)
      ensures Valid() && this.enabled == enabled && !hasHisto
      ensures fresh(red) && fresh(green) && fresh(blue) && fresh(total)
    {
      this.enabled := enabled;
      hasHisto := false;
      red := new nat[BINS](_ => 0);
      green := new nat[BINS](_ => 0);
      blue := new nat[BINS](_ => 0);
      total := new nat[BINS](_ => 0);
      max, maxEdit := 0, 0;
    }

    /** `calculate_histogram` with its loop bound `i < size - 4`: every pixel
        but the last is counted. */
    method CalculateAsWritten(data: seq<byte>)
      requires Valid() && |data| % 4 == 0 && |data| >= 4
      modifies this, red, green, blue, total
      ensures Valid() && enabled == old(enabled)
      ensures !enabled ==> !hasHisto && unchanged(red, green, blue, total)
                           && max == old(max) && maxEdit == old(maxEdit)
      ensures enabled ==> Computed(data, |data| / 4 - 1)
    {
      Compute(data, |data| - 4);
    }

    /** `calculate_histogram` with the bound `i < size`: every pixel is
        counted. */
    method Calculate(data: seq<byte>)
      requires Valid() && |data| % 4 == 0
      modifies this, red, green, blue, total
      ensures Valid() && enabled == old(enabled)
      ensures !enabled ==> !hasHisto && unchanged(red, green, blue, total)
                           && max == old(max) && maxEdit == old(maxEdit)
      ensures enabled ==> Computed(data, |data| / 4)
    {
      Compute(data, |data|);
    }

    /** The bins after counting the first n pixels of data. */
    ghost predicate Counted(data: seq<byte>, n: nat)
      requires Valid()
      reads red, green, blue, total
    {
      4 * n <= |data|
      && red[..] == Tally(data, n, 0) && green[..] == Tally(data, n, 1)
      && blue[..] == Tally(data, n, 2) && total[..] == Total(data, n)
    }

    /** The state after counting the first n pixels of data. */
    ghost predicate Computed(data: seq<byte>, n: nat)
      requires Valid()
      reads this, red, green, blue, total
    {
      Counted(data, n) && hasHisto && max == MaxOf(total[..]) && maxEdit == max
    }

    /** The body of `calculate_histogram` with the loop bound `bound`. */
    method Compute(data: seq<byte>, bound: nat)
      requires Valid() && |data| % 4 == 0 && bound % 4 == 0 && bound <= |data|
      modifies this, red, green, blue, total
      ensures Valid() && enabled == old(enabled)
      ensures !enabled ==> !hasHisto && unchanged(red, green, blue, total)
                           && max == old(max) && maxEdit == old(maxEdit)
      ensures enabled ==> Computed(data, bound / 4)
    {
      hasHisto := false;
      if !enabled {
        return;
      }
      ClearAll();
      max := 0;
      CountPixels(data, bound);
      max := MaxLoop(total);
      maxEdit := max;
      hasHisto := true;
    }

    /** The counting loop over the bytes below `bound`, four per pixel. */
    method CountPixels(data: seq<byte>, bound: nat)
      requires Valid() && bound % 4 == 0 && bound <= |data|
      requires red[..] == Zeros() && green[..] == Zeros() && blue[..] == Zeros() && total[..] == Zeros()
      modifies red, green, blue, total
      ensures Counted(data, bound / 4)
    {
      var i := 0;
      while i < bound
        invariant i % 4 == 0 && i <= bound && Counted(data, i / 4)
      {
        AddPixel(data, i);
        assert (i + 4) / 4 == i / 4 + 1;
        i := i + 4;
      }
    }

    /** The `memset` of the four histograms. */
    method ClearAll()
      requires Valid()
      modifies red, green, blue, total
      ensures red[..] == Zeros() && green[..] == Zeros() && blue[..] == Zeros() && total[..] == Zeros()
    {
      Clear(red);
      Clear(green);
      Clear(blue);
      Clear(total);
    }

    /** One turn of the counting loop: the pixel at byte i adds its red, green
        and blue value to their own histogram and to the combined one. */
    method AddPixel(data: seq<byte>, i: nat)
      requires Valid() && i % 4 == 0 && i + 4 <= |data| && Counted(data, i / 4)
      modifies red, green, blue, total
      ensures Counted(data, i / 4 + 1)
    {
      assert 4 * (i / 4) == i;
      Increment(red, data[i]);
      Increment(total, data[i]);
      Increment(green, data[i + 1]);
      Increment(total, data[i + 1]);
      Increment(blue, data[i + 2]);
      Increment(total, data[i + 2]);
    }
  }

  /** The `memset` of one histogram. */
  method Clear(a: array<nat>)
    requires a.Length == BINS
    modifies a
    ensures a[..] == Zeros()
  {
    var i := 0;
    while i < BINS
      invariant i <= BINS && forall j :: 0 <= j < i ==> a[j] == 0
    {
      a[i] := 0;
      i := i + 1;
    }
  }

  /** `histo[v]++`. */
  method Increment(a: array<nat>, v: byte)
    requires a.Length == BINS
    modifies a
    ensures a[..] == Bump(old(a[..]), v)
  {
    a[v] := a[v] + 1;
  }

  /** The loop that takes the maximum over the combined bins. */
  method MaxLoop(a: array<nat>) returns (m: nat)
    ensures m == MaxOf(a[..])
  {
    m := 0;
    var i := 0;
    while i < a.Length
      invariant i <= a.Length && m == MaxOf(a[..i])
    {
      assert a[..i + 1][..i] == a[..i];
      m := if m < a[i] then a[i] else m;
      i := i + 1;
    }
    assert a[..] == a[..a.Length];
  }

  // ---------------------------------------------------------------------------
  // Properties.

  /** Bin v of channel c counts exactly the pixels whose channel c is v. */
  lemma {:induction false} TallyCounts(data: seq<byte>, n: nat, c: nat, v: byte)
    requires 4 * n <= |data| && c < 3
    ensures Tally(data, n, c)[v] == multiset(Channel(data, n, c))[v]
  {
    if n > 0 {
      TallyCounts(data, n - 1, c, v);
      assert Channel(data, n, c) == Channel(data, n - 1, c) + [data[4 * (n - 1) + c]];
    }
  }

  /** Each combined bin is the sum of the three channel bins. */
  lemma {:induction false} TotalIsSum(data: seq<byte>, n: nat, v: nat)
    requires 4 * n <= |data| && v < BINS
    ensures Total(data, n)[v] == Tally(data, n, 0)[v] + Tally(data, n, 1)[v] + Tally(data, n, 2)[v]
  {
    if n > 0 {
      var p := 4 * (n - 1);
      var r, g, b := Tally(data, n - 1, 0), Tally(data, n - 1, 1), Tally(data, n - 1, 2);
      assert Tally(data, n, 0) == Bump(r, data[p]);
      assert Tally(data, n, 1) == Bump(g, data[p + 1]);
      assert Tally(data, n, 2) == Bump(b, data[p + 2]);
      var t := Total(data, n - 1);
      assert Total(data, n) == Bump(Bump(Bump(t, data[p]), data[p + 1]), data[p + 2]);
      TotalIsSum(data, n - 1, v);
      BumpThree(t, r, g, b, data[p], data[p + 1], data[p + 2], v);
    }
  }

  /** A pixel bumping the combined bins and each channel's bins keeps every
      combined bin the sum of the channel bins. */
  lemma BumpThree(t: seq<nat>, r: seq<nat>, g: seq<nat>, b: seq<nat>, x: byte, y: byte, z: byte, v: nat)
    requires |t| == |r| == |g| == |b| == BINS && v < BINS
    requires t[v] == r[v] + g[v] + b[v]
    ensures Bump(Bump(Bump(t, x), y), z)[v] == Bump(r, x)[v] + Bump(g, y)[v] + Bump(b, z)[v]
  {
    BumpAt(t, x, v);
    BumpAt(Bump(t, x), y, v);
    BumpAt(Bump(Bump(t, x), y), z, v);
    BumpAt(r, x, v);
    BumpAt(g, y, v);
    BumpAt(b, z, v);
  }

  lemma BumpAt(bins: seq<nat>, u: byte, v: nat)
    requires |bins| == BINS && v < BINS
    ensures Bump(bins, u)[v] == bins[v] + (if u as int == v then 1 else 0)
  {
  }

  /** Every channel histogram holds one count per counted pixel. */
  lemma {:induction false} TallySum(data: seq<byte>, n: nat, c: nat)
    requires 4 * n <= |data| && c < 3
    ensures Sum(Tally(data, n, c)) == n
  {
    if n == 0 {
      ZerosSum();
    } else {
      TallySum(data, n - 1, c);
      BumpSum(Tally(data, n - 1, c), data[4 * (n - 1) + c]);
    }
  }

  /** The combined histogram holds three counts per counted pixel. */
  lemma {:induction false} TotalSum(data: seq<byte>, n: nat)
    requires 4 * n <= |data|
    ensures Sum(Total(data, n)) == 3 * n
  {
    if n == 0 {
      ZerosSum();
    } else {
      TotalSum(data, n - 1);
      TotalStep(data, n);
    }
  }

  /** One more pixel adds three counts to the combined histogram. */
  lemma TotalStep(data: seq<byte>, n: nat)
    requires 0 < n && 4 * n <= |data|
    ensures Sum(Total(data, n)) == Sum(Total(data, n - 1)) + 3
  {
    var p := 4 * (n - 1);
    var t := Total(data, n - 1);
    assert Total(data, n) == Bump(Bump(Bump(t, data[p]), data[p + 1]), data[p + 2]);
    BumpSumThree(t, data[p], data[p + 1], data[p + 2]);
  }

  lemma BumpSumThree(t: seq<nat>, x: byte, y: byte, z: byte)
    requires |t| == BINS
    ensures Sum(Bump(Bump(Bump(t, x), y), z)) == Sum(t) + 3
  {
    BumpSum(t, x);
    BumpSum(Bump(t, x), y);
    BumpSum(Bump(Bump(t, x), y), z);
  }

  lemma ZerosSum()
    ensures Sum(Zeros()) == 0
  {
    ZerosPrefixSum(BINS);
    assert Zeros()[..BINS] == Zeros();
  }

  lemma {:induction false} ZerosPrefixSum(k: nat)
    requires k <= BINS
    ensures Sum(Zeros()[..k]) == 0
  {
    if k > 0 {
      assert Zeros()[..k][..k - 1] == Zeros()[..k - 1];
      ZerosPrefixSum(k - 1);
    }
  }

  /** Adding one to an element adds one to the sum. */
  lemma {:induction false} SumUpdate(s: seq<nat>, i: nat)
    requires i < |s|
    ensures Sum(s[i := s[i] + 1]) == Sum(s) + 1
  {
    var t := s[i := s[i] + 1];
    if i == |s| - 1 {
      assert t[..|t| - 1] == s[..|s| - 1];
    } else {
      assert t[..|t| - 1] == s[..|s| - 1][i := s[i] + 1];
      SumUpdate(s[..|s| - 1], i);
    }
  }

  lemma BumpSum(bins: seq<nat>, v: byte)
    requires |bins| == BINS
    ensures Sum(Bump(bins, v)) == Sum(bins) + 1
  {
    SumUpdate(bins, v as nat);
  }

  /** The largest bin bounds every bin and is one of them. */
  lemma {:induction false} MaxOfBounds(s: seq<nat>)
    ensures forall i :: 0 <= i < |s| ==> s[i] <= MaxOf(s)
    ensures s != [] ==> MaxOf(s) in s
  {
    if s != [] {
      MaxOfBounds(s[..|s| - 1]);
      assert s == s[..|s| - 1] + [s[|s| - 1]];
    }
  }

  /** The bound `size - 4` misses the last pixel: with the loop as written,
      every channel histogram of an image of k pixels sums to k - 1, and the
      one-pixel image (7, 7, 7, 255) leaves the red bin 7 empty although its
      only pixel is red 7. */
  lemma LastPixelSkipped(data: seq<byte>, c: nat)
    requires |data| % 4 == 0 && |data| >= 4 && c < 3
    ensures Sum(Tally(data, |data| / 4 - 1, c)) == |data| / 4 - 1
    ensures Tally([7, 7, 7, 255], 4 / 4 - 1, 0)[7] == 0
    ensures multiset(Channel([7, 7, 7, 255], 1, 0))[7] == 1
  {
    TallySum(data, |data| / 4 - 1, c);
    assert Channel([7, 7, 7, 255], 1, 0) == [7];
  }

  /** With the corrected bound every pixel is counted, once per channel and
      three times in the combined histogram. */
  lemma EveryPixelCounted(data: seq<byte>, c: nat)
    requires |data| % 4 == 0 && c < 3
    ensures Sum(Tally(data, |data| / 4, c)) == |data| / 4
    ensures Sum(Total(data, |data| / 4)) == 3 * (|data| / 4)
  {
    TallySum(data, |data| / 4, c);
    TotalSum(data, |data| / 4);
  }
}
