/** The order in which the thumbnail thread (`thumbs_thread`) visits the files
    of the directory table, and the cell of the 4000x4000 thumbnail atlas each
    file is drawn into.

    The thread keeps two cursors: `retro` walks down from the file before the
    current one, `pro` walks up from the current one. It alternates between
    them, starting with `retro`, and once one side is exhausted it keeps taking
    the other. It stops after the visit that leaves both exhausted. */
module Thumbs {

  /** The side length of the atlas texture. */
  const ATLAS: nat := 4000

  function Clamp(x: int, lo: int, hi: int): int {
    if x < lo then lo else if x > hi then hi else x
  }

  /** The integers lo, lo+1, ..., hi-1. */
  function Range(lo: int, hi: int): (r: seq<int>)
    decreases hi - lo
    ensures |r| == if lo < hi then hi - lo else 0
  {
    if lo >= hi then [] else [lo] + Range(lo + 1, hi)
  }

  /** The cursors inside their ranges: `pro` in [0, count], `retro` in
      [-1, count - 1], and `retro` never above `pro`. */
  predicate Cursors(count: nat, pro: int, retro: int) {
    0 <= pro <= count && -1 <= retro < count && retro <= pro
  }

  /** The stopping test of the loop: `pro` is past the last file and `retro`
      before the first. */
  predicate Exhausted(count: nat, pro: int, retro: int) {
    pro > count - 1 && retro < 0
  }

  /** The side an iteration takes: the current turn, unless that side is
      exhausted, in which case the other one. */
  function Turn(count: nat, pro: int, retro: int, turnPro: bool): bool {
    if turnPro && pro > count - 1 then false
    else if !turnPro && retro < 0 then true
    else turnPro
  }

  /** The files visited from the state (pro, retro, turnPro) on, in order:
      none once both sides are exhausted. */
  function Visits(count: nat, pro: int, retro: int, turnPro: bool): (r: seq<int>)
    requires Cursors(count, pro, retro)
    decreases count - pro + retro, 1
  {
    if Exhausted(count, pro, retro) then [] else Visit(count, pro, retro, turnPro)
  }

  /** One iteration and the rest of the loop. */
  function Visit(count: nat, pro: int, retro: int, turnPro: bool): (r: seq<int>)
    requires Cursors(count, pro, retro) && !Exhausted(count, pro, retro)
    decreases count - pro + retro, 0
  {
    if Turn(count, pro, retro, turnPro) then [pro] + Visits(count, pro + 1, retro, false)
    else [retro] + Visits(count, pro, retro - 1, true)
  }

  /** The visits of the whole thread, started with `current` as the current
      file index of a table of `count` files. */
  function Schedule(count: nat, current: int): (r: seq<int>)
    requires count > 0
  {
    Visits(count, Clamp(current, 0, count - 1), Clamp(current - 1, 0, count - 1), false)
  }

  /** The visiting loop of `thumbs_thread`, recording each visited index and
      setting its `thumb_loaded` flag. */
  method ScheduleLoop(current: int, thumbLoaded: array<bool>) returns (visits: seq<int>)
    requires thumbLoaded.Length > 0
    modifies thumbLoaded
    ensures visits == Schedule(thumbLoaded.Length, current)
    ensures forall k :: 0 <= k < thumbLoaded.Length ==> thumbLoaded[k]
  {
    var count := thumbLoaded.Length;
    var pro := Clamp(current, 0, count - 1);
    var retro := Clamp(current - 1, 0, count - 1);
    var turnPro := false;
    visits := [];
    while true
      invariant Cursors(count, pro, retro) && !Exhausted(count, pro, retro)
      invariant visits + Visits(count, pro, retro, turnPro) == Schedule(count, current)
      invariant forall k :: 0 <= k < count && retro < k < pro ==> thumbLoaded[k]
      decreases count - pro + retro
    {
      ghost var rest := Visits(count, pro, retro, turnPro);
      var i := if turnPro then pro else retro;
      if turnPro && pro > count - 1 {
        i := retro;
        turnPro := false;
      } else if !turnPro && retro < 0 {
        i := pro;
        turnPro := true;
      }
      if turnPro {
        pro := pro + 1;
      } else {
        retro := retro - 1;
      }
      turnPro := !turnPro;
      thumbLoaded[i] := true;
      visits := visits + [i];
      assert rest == [i] + Visits(count, pro, retro, turnPro);
      if pro > count - 1 && retro < 0 {
        return;
      }
    }
  }

  /** Every file is visited; the one file both cursors start on (index 0 when
      the current index is 0, the last index when it is past the end) is
      visited twice, and nothing else is. */
  lemma ScheduleCovers(count: nat, current: int)
    requires count > 0
    ensures var pro, retro := Clamp(current, 0, count - 1), Clamp(current - 1, 0, count - 1);
            multiset(Schedule(count, current))
            == multiset(Range(0, count)) + (if pro == retro then multiset{pro} else multiset{})
  {
    var pro, retro := Clamp(current, 0, count - 1), Clamp(current - 1, 0, count - 1);
    if pro == retro {
      CoverFromSame(count, pro);
    } else {
      CoverFromAdjacent(count, pro);
    }
  }

  lemma CoverFromSame(count: nat, k: int)
    requires 0 <= k < count
    ensures multiset(Visits(count, k, k, false)) == multiset(Range(0, count)) + multiset{k}
  {
    VisitsCover(count, k, k, false);
    RangeSplit(0, k + 1, count);
    RangeSplit(k, k + 1, count);
  }

  lemma CoverFromAdjacent(count: nat, k: int)
    requires 0 < k < count
    ensures multiset(Visits(count, k, k - 1, false)) == multiset(Range(0, count))
  {
    VisitsCover(count, k, k - 1, false);
    RangeSplit(0, k, count);
  }

  /** From any cursor state, the visits are the files at or below `retro`
      and those at or above `pro`. */
  lemma {:induction false} VisitsCover(count: nat, pro: int, retro: int, turnPro: bool)
    requires Cursors(count, pro, retro)
    ensures multiset(Visits(count, pro, retro, turnPro))
            == multiset(Range(0, retro + 1)) + multiset(Range(pro, count))
    decreases count - pro + retro, 1
  {
    if Exhausted(count, pro, retro) {
      assert Range(0, retro + 1) == [] && Range(pro, count) == [];
    } else if Turn(count, pro, retro, turnPro) {
      VisitCoverPro(count, pro, retro, turnPro);
    } else {
      VisitCoverRetro(count, pro, retro, turnPro);
    }
  }

  /** A visit of `pro` takes the lowest file of the upper range. */
  lemma {:induction false} VisitCoverPro(count: nat, pro: int, retro: int, turnPro: bool)
    requires Cursors(count, pro, retro) && !Exhausted(count, pro, retro)
    requires Turn(count, pro, retro, turnPro)
    ensures multiset(Visit(count, pro, retro, turnPro))
            == multiset(Range(0, retro + 1)) + multiset(Range(pro, count))
    decreases count - pro + retro, 0
  {
    VisitPro(count, pro, retro, turnPro);
    VisitsCover(count, pro + 1, retro, false);
    RangeCons(pro, count);
  }

  lemma VisitPro(count: nat, pro: int, retro: int, turnPro: bool)
    requires Cursors(count, pro, retro) && !Exhausted(count, pro, retro)
    requires Turn(count, pro, retro, turnPro)
    ensures pro < count
    ensures multiset(Visit(count, pro, retro, turnPro)) == multiset{pro} + multiset(Visits(count, pro + 1, retro, false))
  {
  }

  lemma RangeCons(lo: int, hi: int)
    requires lo < hi
    ensures multiset(Range(lo, hi)) == multiset{lo} + multiset(Range(lo + 1, hi))
  {
  }

  /** A visit of `retro` takes the highest file of the lower range. */
  lemma {:induction false} VisitCoverRetro(count: nat, pro: int, retro: int, turnPro: bool)
    requires Cursors(count, pro, retro) && !Exhausted(count, pro, retro)
    requires !Turn(count, pro, retro, turnPro)
    ensures multiset(Visit(count, pro, retro, turnPro))
            == multiset(Range(0, retro + 1)) + multiset(Range(pro, count))
    decreases count - pro + retro, 0
  {
    VisitsCover(count, pro, retro - 1, true);
    RangeSnoc(0, retro);
  }

  lemma {:induction false} RangeSnoc(lo: int, k: int)
    requires lo <= k
    ensures Range(lo, k + 1) == Range(lo, k) + [k]
    decreases k - lo
  {
    if lo < k {
      RangeSnoc(lo + 1, k);
    }
  }

  lemma {:induction false} RangeSplit(lo: int, mid: int, hi: int)
    requires lo <= mid <= hi
    ensures Range(lo, hi) == Range(lo, mid) + Range(mid, hi)
    decreases mid - lo
  {
    if lo < mid {
      RangeSplit(lo + 1, mid, hi);
    }
  }

  /** When the current file has a predecessor, the thread starts with that
      predecessor and then the current file. */
  lemma ScheduleStart(count: nat, current: int)
    requires 0 < current < count
    ensures |Schedule(count, current)| >= 2
    ensures Schedule(count, current)[0] == current - 1 && Schedule(count, current)[1] == current
  {
    assert Visits(count, current, current - 1, false) == Visit(count, current, current - 1, false)
           == [current - 1] + Visits(count, current, current - 2, true);
    assert Visits(count, current, current - 2, true) == Visit(count, current, current - 2, true)
           == [current] + Visits(count, current + 1, current - 2, false);
  }

  // ---------------------------------------------------------------------------
  // The atlas.

  /** The top-left corner of the atlas cell of file n for thumbnails of side
      `dim`: cells fill rows of `ATLAS / dim`, left to right, top to bottom. */
  function Cell(n: nat, dim: nat): (int, int)
    requires 0 < dim <= ATLAS
  {
    PerRow(dim);
    var perRow := ATLAS / dim;
    ((n % perRow) * dim, (n / perRow) * dim)
  }

  /** A cell never crosses the right edge of the atlas. */
  lemma CellInRow(n: nat, dim: nat)
    requires 0 < dim <= ATLAS
    ensures Cell(n, dim).0 + dim <= ATLAS
  {
    var perRow := ATLAS / dim;
    PerRow(dim);
    MulLe(n % perRow + 1, perRow, dim);
    Distribute(n % perRow, dim);
  }

  /** A cell lies above the bottom edge of the atlas exactly when n is below
      the number of cells that fit. */
  lemma CellInAtlas(n: nat, dim: nat)
    requires 0 < dim <= ATLAS
    ensures Cell(n, dim).1 + dim <= ATLAS <==> n < (ATLAS / dim) * (ATLAS / dim)
  {
    var perRow := ATLAS / dim;
    PerRow(dim);
    RowBound(n, perRow);
    RowInAtlas(n / perRow, perRow, dim);
  }

  lemma RowInAtlas(row: nat, perRow: nat, dim: nat)
    requires 0 < dim && perRow * dim <= ATLAS < (perRow + 1) * dim
    ensures row * dim + dim <= ATLAS <==> row < perRow
  {
    Distribute(row, dim);
    if row < perRow {
      MulLe(row + 1, perRow, dim);
    } else {
      MulLe(perRow + 1, row + 1, dim);
    }
  }

  /** `ATLAS / dim` cells of side dim fit in a row, and one more does not. */
  lemma PerRow(dim: nat)
    requires 0 < dim <= ATLAS
    ensures ATLAS / dim > 0
    ensures (ATLAS / dim) * dim <= ATLAS < (ATLAS / dim + 1) * dim
  {
    var q, r := ATLAS / dim, ATLAS % dim;
    assert ATLAS == q * dim + r;
    Distribute(q, dim);
  }

  lemma RowBound(n: nat, perRow: nat)
    requires perRow > 0
    ensures n / perRow < perRow <==> n < perRow * perRow
  {
    var row, col := n / perRow, n % perRow;
    assert n == row * perRow + col;
    if row < perRow {
      MulLe(row + 1, perRow, perRow);
      Distribute(row, perRow);
    } else {
      MulLe(perRow, row, perRow);
    }
  }

  lemma Distribute(a: nat, c: nat)
    ensures (a + 1) * c == a * c + c
  {
  }

  /** Different files get different cells. */
  lemma CellsDistinct(n: nat, m: nat, dim: nat)
    requires 0 < dim <= ATLAS && n != m
    ensures Cell(n, dim) != Cell(m, dim)
  {
    var perRow := ATLAS / dim;
    PerRow(dim);
    if Cell(n, dim) == Cell(m, dim) {
      MulCancel(n % perRow, m % perRow, dim);
      MulCancel(n / perRow, m / perRow, dim);
      assert false;
    }
  }

  lemma MulLe(a: nat, b: nat, c: nat)
    requires a <= b
    ensures a * c <= b * c
  {
  }

  lemma MulCancel(a: nat, b: nat, c: nat)
    requires c > 0 && a * c == b * c
    ensures a == b
  {
    if a < b {
      MulLe(a + 1, b, c);
      Distribute(a, c);
    } else if b < a {
      MulLe(b + 1, a, c);
      Distribute(b, c);
    }
  }
}
