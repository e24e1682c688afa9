/** The frame scanner `draw_frame` of src/bin/4x4-led-matrix.rs.

    One call shows a frame for a time budget `duration` (microseconds) using a
    pulse width `minSpace` (microseconds). A scan pass enables rows 0..3 in turn
    and, inside the enabled row, pulses each lit column for `minSpace`. A pass
    therefore takes `lap = minSpace * LitCount(f)` microseconds, and the call
    runs `duration / lap` passes; the remainder of the budget is not waited out.
    When `lap` is zero the call waits the whole budget and drives nothing. */
module Scanner {
  import opened Seqs
  import opened Lines
  import opened Frames

  const U32Limit: nat := 0x1_0000_0000

  /** The source's `u32`. */
  type u32 = x: int | 0 <= x < U32Limit

  /** `min_space * num_on` does not overflow a `u32`. */
  predicate LapFits(f: Frame, minSpace: nat) {
    minSpace * LitCount(f) < U32Limit
  }

  /** Duration of one scan pass, `lap`. */
  function Lap(f: Frame, minSpace: nat): nat {
    minSpace * LitCount(f)
  }

  /** Number of scan passes, `loops`; no passes are made when `lap` is zero. */
  function Passes(f: Frame, duration: nat, minSpace: nat): nat {
    var lap := Lap(f, minSpace);
    if lap == 0 then 0 else duration / lap
  }

  /** Row `r` enabled, no column driven: the state inside a row scan. */
  function RowOn(r: nat): LineState {
    LineState({r}, {})
  }

  /** Column `j` high, wait `minSpace`, column `j` low. */
  function Pulse(j: nat, minSpace: nat): seq<Event> {
    [ColHigh(j), DelayUs(minSpace), ColLow(j)]
  }

  /** The inner column loop over the first `n` cells of a row: only lit cells
      are pulsed, in column order. */
  function ColumnPulses(row: seq<bool>, n: nat, minSpace: nat): seq<Event>
    requires n <= |row|
  {
    if n == 0 then []
    else ColumnPulses(row, n - 1, minSpace) + (if row[n - 1] then Pulse(n - 1, minSpace) else [])
  }

  /** Enable row `i`, pulse its lit columns, disable it again. */
  function RowScan(f: Frame, i: nat, minSpace: nat): seq<Event>
    requires i < Size
  {
    [RowLow(i)] + ColumnPulses(f[i], |f[i]|, minSpace) + [RowHigh(i)]
  }

  /** The row loop over the first `n` rows. */
  function ScanRows(f: Frame, n: nat, minSpace: nat): seq<Event>
    requires n <= Size
  {
    if n == 0 then [] else ScanRows(f, n - 1, minSpace) + RowScan(f, n - 1, minSpace)
  }

  /** One full scan pass over rows 0..3. */
  function ScanPass(f: Frame, minSpace: nat): seq<Event> {
    ScanRows(f, |f|, minSpace)
  }

  /** The events `draw_frame(frame, duration, min_space)` issues. The trace is a
      function of the three arguments only, so equal calls give equal traces. */
  function DrawFrame(f: Frame, duration: u32, minSpace: u32): (r: seq<Event>)
    requires LapFits(f, minSpace)
  {
    if Lap(f, minSpace) == 0 then [DelayUs(duration)]
    else Repeat(ScanPass(f, minSpace), Passes(f, duration, minSpace))
  }

  // ---------------------------------------------------------------------------
  // Pulse pairing: every column that goes high is held for `minSpace` and then
  // released before anything else happens.

  predicate Paired(t: seq<Event>, minSpace: nat) {
    forall k :: 0 <= k < |t| && t[k].ColHigh? ==>
      k + 2 < |t| && t[k + 1] == DelayUs(minSpace) && t[k + 2] == ColLow(t[k].col)
  }

  lemma PairedAppend(a: seq<Event>, b: seq<Event>, minSpace: nat)
    requires Paired(a, minSpace) && Paired(b, minSpace)
    ensures Paired(a + b, minSpace)
  {
    var c := a + b;
    forall k | 0 <= k < |c| && c[k].ColHigh?
      ensures k + 2 < |c| && c[k + 1] == DelayUs(minSpace) && c[k + 2] == ColLow(c[k].col)
    {
      if k < |a| {
        assert a[k].ColHigh?;
      } else {
        assert b[k - |a|].ColHigh?;
      }
    }
  }

  lemma {:induction false} PairedRepeat(t: seq<Event>, n: nat, minSpace: nat)
    requires Paired(t, minSpace)
    ensures Paired(Repeat(t, n), minSpace)
  {
    if n > 0 {
      PairedRepeat(t, n - 1, minSpace);
      PairedAppend(Repeat(t, n - 1), t, minSpace);
    }
  }

  /** Every wait in `t` is a microsecond wait of exactly `minSpace`. */
  predicate WaitsAre(t: seq<Event>, minSpace: nat) {
    forall e :: e in t ==> !e.DelayMs? && (e.DelayUs? ==> e.us == minSpace)
  }

  /** Column indices of a sequence of `ColHigh` events strictly increase. */
  predicate Ascending(hs: seq<Event>) {
    forall a, b :: 0 <= a < b < |hs| && hs[a].ColHigh? && hs[b].ColHigh? ==> hs[a].col < hs[b].col
  }

  // ---------------------------------------------------------------------------
  // One pulse, inside row `r`.

  lemma PulseState(r: nat, j: nat, minSpace: nat)
    ensures Run(RowOn(r), Pulse(j, minSpace)) == RowOn(r)
    ensures AllSafe(RowOn(r), Pulse(j, minSpace))
  {
    var s0, s1 := RowOn(r), LineState({r}, {j});
    var up, hold, down := [ColHigh(j)], [DelayUs(minSpace)], [ColLow(j)];
    assert Pulse(j, minSpace) == up + hold + down;
    Single(s0, ColHigh(j));
    Single(s1, DelayUs(minSpace));
    Single(s1, ColLow(j));
    assert Apply(s1, ColLow(j)) == s0;
    RunAppend(s0, up, hold);
    RunAppend(s0, up + hold, down);
    AllSafeAppend(s0, up, hold);
    AllSafeAppend(s0, up + hold, down);
  }

  lemma PulseTime(j: nat, minSpace: nat)
    ensures TotalUs(Pulse(j, minSpace)) == minSpace
  {
    var up, hold, down := [ColHigh(j)], [DelayUs(minSpace)], [ColLow(j)];
    assert Pulse(j, minSpace) == up + hold + down;
    Single(Idle, ColHigh(j));
    Single(Idle, DelayUs(minSpace));
    Single(Idle, ColLow(j));
    TotalUsAppend(up, hold);
    TotalUsAppend(up + hold, down);
  }

  lemma PulseCell(r: nat, j: nat, minSpace: nat, i: nat, c: nat)
    ensures LitUs(RowOn(r), Pulse(j, minSpace), i, c) == if i == r && c == j then minSpace else 0
    ensures Flashes(RowOn(r), Pulse(j, minSpace), i, c) == if i == r && c == j then 1 else 0
  {
    var s0, s1 := RowOn(r), LineState({r}, {j});
    var up, hold, down := [ColHigh(j)], [DelayUs(minSpace)], [ColLow(j)];
    assert Pulse(j, minSpace) == up + hold + down;
    Single(s0, ColHigh(j));
    Single(s1, DelayUs(minSpace));
    Single(s1, ColLow(j));
    RunAppend(s0, up, hold);
    LitUsAppend(s0, up, hold, i, c);
    LitUsAppend(s0, up + hold, down, i, c);
    FlashesAppend(s0, up, hold, i, c);
    FlashesAppend(s0, up + hold, down, i, c);
  }

  /** The column loop's step for cell `j`: a pulse if the cell is lit,
      nothing otherwise. */
  lemma SlotCell(row: seq<bool>, j: nat, r: nat, minSpace: nat, i: nat, c: nat)
    requires j < |row|
    ensures LitUs(RowOn(r), if row[j] then Pulse(j, minSpace) else [], i, c)
              == if i == r && c == j && row[j] then minSpace else 0
    ensures Flashes(RowOn(r), if row[j] then Pulse(j, minSpace) else [], i, c)
              == if i == r && c == j && row[j] then 1 else 0
  {
    PulseCell(r, j, minSpace, i, c);
  }

  lemma PulseShape(j: nat, minSpace: nat)
    ensures Keep(Pulse(j, minSpace), IsRowEvent) == []
    ensures Keep(Pulse(j, minSpace), IsColHigh) == [ColHigh(j)]
    ensures Keep(Pulse(j, minSpace), IsColEvent) == [ColHigh(j), ColLow(j)]
  {
    KeepTriple(ColHigh(j), DelayUs(minSpace), ColLow(j), IsRowEvent);
    KeepTriple(ColHigh(j), DelayUs(minSpace), ColLow(j), IsColHigh);
    KeepTriple(ColHigh(j), DelayUs(minSpace), ColLow(j), IsColEvent);
  }

  /** A pulse holds its column for `minSpace` and then releases it. */
  lemma PulsePaired(j: nat, minSpace: nat)
    ensures Paired(Pulse(j, minSpace), minSpace)
  {
    var t := Pulse(j, minSpace);
    forall k | 0 <= k < |t| && t[k].ColHigh?
      ensures k + 2 < |t| && t[k + 1] == DelayUs(minSpace) && t[k + 2] == ColLow(t[k].col)
    {
      assert k == 0;
    }
  }

  // ---------------------------------------------------------------------------
  // The column loop.

  /** The column loop leaves the enabled row on and every column low. */
  lemma {:induction false} ColumnPulsesRun(row: seq<bool>, n: nat, r: nat, minSpace: nat)
    requires n <= |row|
    ensures Run(RowOn(r), ColumnPulses(row, n, minSpace)) == RowOn(r)
  {
    if n > 0 {
      ColumnPulsesRun(row, n - 1, r, minSpace);
      var head := ColumnPulses(row, n - 1, minSpace);
      var last := if row[n - 1] then Pulse(n - 1, minSpace) else [];
      assert ColumnPulses(row, n, minSpace) == head + last;
      RunAppend(RowOn(r), head, last);
      PulseState(r, n - 1, minSpace);
    }
  }

  lemma {:induction false} ColumnPulsesState(row: seq<bool>, n: nat, r: nat, minSpace: nat)
    requires n <= |row|
    ensures Run(RowOn(r), ColumnPulses(row, n, minSpace)) == RowOn(r)
    ensures AllSafe(RowOn(r), ColumnPulses(row, n, minSpace))
  {
    if n > 0 {
      ColumnPulsesState(row, n - 1, r, minSpace);
      var head := ColumnPulses(row, n - 1, minSpace);
      if row[n - 1] {
        var last := Pulse(n - 1, minSpace);
        assert ColumnPulses(row, n, minSpace) == head + last;
        RunAppend(RowOn(r), head, last);
        AllSafeAppend(RowOn(r), head, last);
        PulseState(r, n - 1, minSpace);
      } else {
        assert ColumnPulses(row, n, minSpace) == head + [];
        assert head + [] == head;
      }
    }
  }

  lemma {:induction false} ColumnPulsesTime(row: seq<bool>, n: nat, minSpace: nat)
    requires n <= |row|
    ensures TotalUs(ColumnPulses(row, n, minSpace)) == minSpace * CountTrue(row[..n])
  {
    if n > 0 {
      ColumnPulsesTime(row, n - 1, minSpace);
      var head := ColumnPulses(row, n - 1, minSpace);
      var k := CountTrue(row[..n - 1]);
      assert row[..n][..n - 1] == row[..n - 1];
      if row[n - 1] {
        var last := Pulse(n - 1, minSpace);
        assert ColumnPulses(row, n, minSpace) == head + last;
        TotalUsAppend(head, last);
        PulseTime(n - 1, minSpace);
        assert CountTrue(row[..n]) == k + 1;
        MulSucc(minSpace, k);
      } else {
        assert ColumnPulses(row, n, minSpace) == head + [];
        assert head + [] == head;
        assert CountTrue(row[..n]) == k;
      }
    }
  }

  lemma {:induction false} ColumnPulsesLitUs(row: seq<bool>, n: nat, r: nat, minSpace: nat, i: nat, c: nat)
    requires n <= |row|
    ensures LitUs(RowOn(r), ColumnPulses(row, n, minSpace), i, c)
              == if i == r && c < n && row[c] then minSpace else 0
  {
    if n > 0 {
      ColumnPulsesLitUs(row, n - 1, r, minSpace, i, c);
      var head := ColumnPulses(row, n - 1, minSpace);
      var last := if row[n - 1] then Pulse(n - 1, minSpace) else [];
      assert ColumnPulses(row, n, minSpace) == head + last;
      ColumnPulsesRun(row, n - 1, r, minSpace);
      CellsJoin(RowOn(r), head, last, i, c);
      SlotCell(row, n - 1, r, minSpace, i, c);
    }
  }

  lemma {:induction false} ColumnPulsesFlashes(row: seq<bool>, n: nat, r: nat, minSpace: nat, i: nat, c: nat)
    requires n <= |row|
    ensures Flashes(RowOn(r), ColumnPulses(row, n, minSpace), i, c)
              == if i == r && c < n && row[c] then 1 else 0
  {
    if n > 0 {
      ColumnPulsesFlashes(row, n - 1, r, minSpace, i, c);
      var head := ColumnPulses(row, n - 1, minSpace);
      var last := if row[n - 1] then Pulse(n - 1, minSpace) else [];
      assert ColumnPulses(row, n, minSpace) == head + last;
      ColumnPulsesRun(row, n - 1, r, minSpace);
      CellsJoin(RowOn(r), head, last, i, c);
      SlotCell(row, n - 1, r, minSpace, i, c);
    }
  }

  lemma {:induction false} ColumnPulsesRows(row: seq<bool>, n: nat, minSpace: nat)
    requires n <= |row|
    ensures Keep(ColumnPulses(row, n, minSpace), IsRowEvent) == []
  {
    if n > 0 {
      ColumnPulsesRows(row, n - 1, minSpace);
      var head := ColumnPulses(row, n - 1, minSpace);
      var last := if row[n - 1] then Pulse(n - 1, minSpace) else [];
      assert ColumnPulses(row, n, minSpace) == head + last;
      KeepAppend(head, last, IsRowEvent);
      if row[n - 1] {
        PulseShape(n - 1, minSpace);
      }
    }
  }

  lemma {:induction false} ColumnPulsesPaired(row: seq<bool>, n: nat, minSpace: nat)
    requires n <= |row|
    ensures Paired(ColumnPulses(row, n, minSpace), minSpace)
  {
    if n > 0 {
      ColumnPulsesPaired(row, n - 1, minSpace);
      var head := ColumnPulses(row, n - 1, minSpace);
      if row[n - 1] {
        var last := Pulse(n - 1, minSpace);
        assert ColumnPulses(row, n, minSpace) == head + last;
        PulsePaired(n - 1, minSpace);
        PairedAppend(head, last, minSpace);
      } else {
        assert ColumnPulses(row, n, minSpace) == head + [];
        assert head + [] == head;
      }
    }
  }

  lemma {:induction false} ColumnPulsesWaits(row: seq<bool>, n: nat, minSpace: nat)
    requires n <= |row|
    ensures WaitsAre(ColumnPulses(row, n, minSpace), minSpace)
  {
    if n > 0 {
      ColumnPulsesWaits(row, n - 1, minSpace);
      var head := ColumnPulses(row, n - 1, minSpace);
      if row[n - 1] {
        var last := Pulse(n - 1, minSpace);
        assert ColumnPulses(row, n, minSpace) == head + last;
        assert forall e :: e in head + last ==> e in head || e in last;
      } else {
        assert ColumnPulses(row, n, minSpace) == head;
      }
    }
  }

  /** Appending a column above every column so far keeps the order ascending. */
  lemma AscendingSnoc(before: seq<Event>, j: nat)
    requires Ascending(before)
    requires forall e :: e in before ==> e.ColHigh? && e.col < j
    ensures Ascending(before + [ColHigh(j)])
  {
    var all := before + [ColHigh(j)];
    forall a, b | 0 <= a < b < |all| && all[a].ColHigh? && all[b].ColHigh?
      ensures all[a].col < all[b].col
    {
      if b >= |before| {
        assert all[a] in before;
      } else {
        assert all[a] == before[a] && all[b] == before[b];
      }
    }
  }

  /** Every event in `hs` drives a lit column of `row` below `n`. */
  predicate LitColumns(hs: seq<Event>, row: seq<bool>, n: nat) {
    forall e :: e in hs ==> e.ColHigh? && e.col < n && e.col < |row| && row[e.col]
  }

  /** The `ColHigh` events of the column loop over the first `n` cells. */
  function Drives(row: seq<bool>, n: nat): seq<Event>
    requires n <= |row|
  {
    if n == 0 then [] else Drives(row, n - 1) + (if row[n - 1] then [ColHigh(n - 1)] else [])
  }

  /** The columns the loop drives are exactly `Drives`. */
  lemma {:induction false} ColumnPulsesDrives(row: seq<bool>, n: nat, minSpace: nat)
    requires n <= |row|
    ensures Keep(ColumnPulses(row, n, minSpace), IsColHigh) == Drives(row, n)
  {
    if n > 0 {
      ColumnPulsesDrives(row, n - 1, minSpace);
      var last := if row[n - 1] then Pulse(n - 1, minSpace) else [];
      var x := if row[n - 1] then [ColHigh(n - 1)] else [];
      PulseShape(n - 1, minSpace);
      assert Keep(last, IsColHigh) == x;
      KeepSnoc(ColumnPulses(row, n - 1, minSpace), last, IsColHigh, x);
    }
  }

  /** As many drives as lit cells among the first `n`. */
  lemma {:induction false} DrivesCount(row: seq<bool>, n: nat)
    requires n <= |row|
    ensures |Drives(row, n)| == CountTrue(row[..n])
  {
    if n > 0 {
      DrivesCount(row, n - 1);
      assert row[..n][..n - 1] == row[..n - 1];
    }
  }

  /** The column events of the column loop over the first `n` cells: a drive
      and a release for each lit cell, nothing for an unlit one. */
  function Toggles(row: seq<bool>, n: nat): seq<Event>
    requires n <= |row|
  {
    if n == 0 then [] else Toggles(row, n - 1) + (if row[n - 1] then [ColHigh(n - 1), ColLow(n - 1)] else [])
  }

  /** The column events the loop issues are exactly `Toggles`. */
  lemma {:induction false} ColumnPulsesToggles(row: seq<bool>, n: nat, minSpace: nat)
    requires n <= |row|
    ensures Keep(ColumnPulses(row, n, minSpace), IsColEvent) == Toggles(row, n)
  {
    if n > 0 {
      ColumnPulsesToggles(row, n - 1, minSpace);
      var last := if row[n - 1] then Pulse(n - 1, minSpace) else [];
      var x := if row[n - 1] then [ColHigh(n - 1), ColLow(n - 1)] else [];
      PulseShape(n - 1, minSpace);
      assert Keep(last, IsColEvent) == x;
      KeepSnoc(ColumnPulses(row, n - 1, minSpace), last, IsColEvent, x);
    }
  }

  /** Two column events per lit cell among the first `n`. */
  lemma {:induction false} TogglesCount(row: seq<bool>, n: nat)
    requires n <= |row|
    ensures |Toggles(row, n)| == 2 * CountTrue(row[..n])
  {
    if n > 0 {
      TogglesCount(row, n - 1);
      assert row[..n][..n - 1] == row[..n - 1];
    }
  }

  /** Every drive is of a lit cell among the first `n`. */
  lemma {:induction false} DrivesLit(row: seq<bool>, n: nat)
    requires n <= |row|
    ensures LitColumns(Drives(row, n), row, n)
  {
    if n > 0 {
      DrivesLit(row, n - 1);
      var before := Drives(row, n - 1);
      if !row[n - 1] {
        assert Drives(row, n) == before + [];
        assert before + [] == before;
      }
    }
  }

  /** Drives come in ascending column order. */
  lemma {:induction false} DrivesAscending(row: seq<bool>, n: nat)
    requires n <= |row|
    ensures Ascending(Drives(row, n))
  {
    if n > 0 {
      DrivesAscending(row, n - 1);
      var before := Drives(row, n - 1);
      if row[n - 1] {
        DrivesLit(row, n - 1);
        AscendingSnoc(before, n - 1);
      } else {
        assert Drives(row, n) == before + [];
        assert before + [] == before;
      }
    }
  }

  // ---------------------------------------------------------------------------
  // One row.

  lemma RowScanState(f: Frame, i: nat, minSpace: nat)
    requires i < Size
    ensures Run(Idle, RowScan(f, i, minSpace)) == Idle
    ensures AllSafe(Idle, RowScan(f, i, minSpace))
  {
    var pulses := ColumnPulses(f[i], |f[i]|, minSpace);
    ColumnPulsesState(f[i], |f[i]|, i, minSpace);
    Single(Idle, RowLow(i));
    Single(RowOn(i), RowHigh(i));
    assert Apply(RowOn(i), RowHigh(i)) == Idle;
    RunAppend(Idle, [RowLow(i)], pulses);
    RunAppend(Idle, [RowLow(i)] + pulses, [RowHigh(i)]);
    AllSafeAppend(Idle, [RowLow(i)], pulses);
    AllSafeAppend(Idle, [RowLow(i)] + pulses, [RowHigh(i)]);
  }

  lemma RowScanTime(f: Frame, i: nat, minSpace: nat)
    requires i < Size
    ensures TotalUs(RowScan(f, i, minSpace)) == minSpace * CountTrue(f[i])
  {
    var pulses := ColumnPulses(f[i], |f[i]|, minSpace);
    ColumnPulsesTime(f[i], |f[i]|, minSpace);
    assert f[i][..Size] == f[i];
    Single(Idle, RowLow(i));
    Single(Idle, RowHigh(i));
    TotalUsAppend([RowLow(i)], pulses);
    TotalUsAppend([RowLow(i)] + pulses, [RowHigh(i)]);
  }

  lemma RowScanCell(f: Frame, i: nat, minSpace: nat, r: nat, c: nat)
    requires i < Size
    ensures LitUs(Idle, RowScan(f, i, minSpace), r, c) == if r == i && c < Size && f[i][c] then minSpace else 0
    ensures Flashes(Idle, RowScan(f, i, minSpace), r, c) == if r == i && c < Size && f[i][c] then 1 else 0
  {
    var pulses := ColumnPulses(f[i], |f[i]|, minSpace);
    ColumnPulsesState(f[i], |f[i]|, i, minSpace);
    ColumnPulsesLitUs(f[i], |f[i]|, i, minSpace, r, c);
    ColumnPulsesFlashes(f[i], |f[i]|, i, minSpace, r, c);
    Single(Idle, RowLow(i));
    Single(RowOn(i), RowHigh(i));
    RunAppend(Idle, [RowLow(i)], pulses);
    LitUsAppend(Idle, [RowLow(i)], pulses, r, c);
    LitUsAppend(Idle, [RowLow(i)] + pulses, [RowHigh(i)], r, c);
    FlashesAppend(Idle, [RowLow(i)], pulses, r, c);
    FlashesAppend(Idle, [RowLow(i)] + pulses, [RowHigh(i)], r, c);
  }

  /** The events of a row scan kept by `p`. */
  lemma RowScanKeep(f: Frame, i: nat, minSpace: nat, p: Event -> bool)
    requires i < Size
    ensures Keep(RowScan(f, i, minSpace), p)
              == (if p(RowLow(i)) then [RowLow(i)] else [])
               + Keep(ColumnPulses(f[i], |f[i]|, minSpace), p)
               + (if p(RowHigh(i)) then [RowHigh(i)] else [])
  {
    var pulses := ColumnPulses(f[i], |f[i]|, minSpace);
    KeepSingle(RowLow(i), p);
    KeepSingle(RowHigh(i), p);
    KeepAppend([RowLow(i)], pulses, p);
    KeepAppend([RowLow(i)] + pulses, [RowHigh(i)], p);
  }

  lemma RowScanShape(f: Frame, i: nat, minSpace: nat)
    requires i < Size
    ensures Keep(RowScan(f, i, minSpace), IsRowEvent) == [RowLow(i), RowHigh(i)]
    ensures Paired(RowScan(f, i, minSpace), minSpace)
    ensures WaitsAre(RowScan(f, i, minSpace), minSpace)
    ensures Keep(RowScan(f, i, minSpace), IsColEvent) == Toggles(f[i], |f[i]|)
    ensures |Keep(RowScan(f, i, minSpace), IsColEvent)| == 2 * CountTrue(f[i])
  {
    var pulses := ColumnPulses(f[i], |f[i]|, minSpace);
    assert Keep(RowScan(f, i, minSpace), IsColEvent) == Toggles(f[i], |f[i]|) by {
      RowScanKeep(f, i, minSpace, IsColEvent);
      ColumnPulsesToggles(f[i], |f[i]|, minSpace);
    }
    assert |Toggles(f[i], |f[i]|)| == 2 * CountTrue(f[i]) by {
      TogglesCount(f[i], |f[i]|);
      assert f[i][..|f[i]|] == f[i];
    }
    ColumnPulsesRows(f[i], |f[i]|, minSpace);
    ColumnPulsesPaired(f[i], |f[i]|, minSpace);
    ColumnPulsesWaits(f[i], |f[i]|, minSpace);
    RowScanKeep(f, i, minSpace, IsRowEvent);
    PairedAppend([RowLow(i)], pulses, minSpace);
    PairedAppend([RowLow(i)] + pulses, [RowHigh(i)], minSpace);
  }

  /** Inside row `i`, the columns pulsed are exactly the lit cells of that
      row, each once, in ascending column order. */
  lemma RowScanColumns(f: Frame, i: nat, minSpace: nat)
    requires i < Size
    ensures |Keep(RowScan(f, i, minSpace), IsColHigh)| == CountTrue(f[i])
    ensures Ascending(Keep(RowScan(f, i, minSpace), IsColHigh))
    ensures forall e :: e in Keep(RowScan(f, i, minSpace), IsColHigh) ==>
              e.ColHigh? && e.col < Size && f[i][e.col]
  {
    var pulses := ColumnPulses(f[i], |f[i]|, minSpace);
    ColumnPulsesDrives(f[i], |f[i]|, minSpace);
    DrivesCount(f[i], |f[i]|);
    DrivesAscending(f[i], |f[i]|);
    DrivesLit(f[i], |f[i]|);
    assert f[i][..|f[i]|] == f[i];
    RowScanKeep(f, i, minSpace, IsColHigh);
    assert Keep(RowScan(f, i, minSpace), IsColHigh) == Keep(pulses, IsColHigh);
  }

  // ---------------------------------------------------------------------------
  // The row loop and one full pass.

  lemma {:induction false} ScanRowsState(f: Frame, n: nat, minSpace: nat)
    requires n <= Size
    ensures Run(Idle, ScanRows(f, n, minSpace)) == Idle
    ensures AllSafe(Idle, ScanRows(f, n, minSpace))
  {
    if n > 0 {
      ScanRowsState(f, n - 1, minSpace);
      RowScanState(f, n - 1, minSpace);
      var head, row := ScanRows(f, n - 1, minSpace), RowScan(f, n - 1, minSpace);
      RunAppend(Idle, head, row);
      AllSafeAppend(Idle, head, row);
    }
  }

  lemma {:induction false} ScanRowsTime(f: Frame, n: nat, minSpace: nat)
    requires n <= Size
    ensures TotalUs(ScanRows(f, n, minSpace)) == minSpace * CountTrue(Flatten(f[..n]))
  {
    if n > 0 {
      ScanRowsTime(f, n - 1, minSpace);
      RowScanTime(f, n - 1, minSpace);
      TotalUsAppend(ScanRows(f, n - 1, minSpace), RowScan(f, n - 1, minSpace));
      assert f[..n][..n - 1] == f[..n - 1];
      CountTrueAppend(Flatten(f[..n - 1]), f[n - 1]);
      MulAdd(minSpace, CountTrue(Flatten(f[..n - 1])), CountTrue(f[n - 1]));
    }
  }

  lemma {:induction false} ScanRowsCell(f: Frame, n: nat, minSpace: nat, r: nat, c: nat)
    requires n <= Size
    ensures LitUs(Idle, ScanRows(f, n, minSpace), r, c) == if r < n && c < Size && f[r][c] then minSpace else 0
    ensures Flashes(Idle, ScanRows(f, n, minSpace), r, c) == if r < n && c < Size && f[r][c] then 1 else 0
  {
    if n > 0 {
      ScanRowsCell(f, n - 1, minSpace, r, c);
      ScanRowsState(f, n - 1, minSpace);
      RowScanCell(f, n - 1, minSpace, r, c);
      var head, row := ScanRows(f, n - 1, minSpace), RowScan(f, n - 1, minSpace);
      LitUsAppend(Idle, head, row, r, c);
      FlashesAppend(Idle, head, row, r, c);
    }
  }

  lemma {:induction false} ScanRowsShape(f: Frame, n: nat, minSpace: nat)
    requires n <= Size
    ensures Keep(ScanRows(f, n, minSpace), IsRowEvent) == RowCycle(n)
    ensures Paired(ScanRows(f, n, minSpace), minSpace)
    ensures WaitsAre(ScanRows(f, n, minSpace), minSpace)
  {
    if n > 0 {
      ScanRowsShape(f, n - 1, minSpace);
      RowScanShape(f, n - 1, minSpace);
      KeepAppend(ScanRows(f, n - 1, minSpace), RowScan(f, n - 1, minSpace), IsRowEvent);
      RowCycleStep(n - 1);
      PairedAppend(ScanRows(f, n - 1, minSpace), RowScan(f, n - 1, minSpace), minSpace);
    } else {
      assert RowCycle(0) == [];
    }
  }

  /** One pass starts and ends idle, never lights two LEDs at once and takes
      exactly `lap` microseconds. */
  lemma PassState(f: Frame, minSpace: nat)
    ensures Run(Idle, ScanPass(f, minSpace)) == Idle
    ensures AllSafe(Idle, ScanPass(f, minSpace))
    ensures TotalUs(ScanPass(f, minSpace)) == Lap(f, minSpace)
  {
    ScanRowsState(f, |f|, minSpace);
    ScanRowsTime(f, |f|, minSpace);
    assert f[..Size] == f;
  }

  /** One pass lights every lit cell once for `minSpace`, and no other cell. */
  lemma PassCells(f: Frame, minSpace: nat)
    ensures forall r: nat, c: nat :: LitUs(Idle, ScanPass(f, minSpace), r, c)
              == if r < Size && c < Size && f[r][c] then minSpace else 0
    ensures forall r: nat, c: nat :: Flashes(Idle, ScanPass(f, minSpace), r, c)
              == if r < Size && c < Size && f[r][c] then 1 else 0
  {
    forall r: nat, c: nat
      ensures LitUs(Idle, ScanPass(f, minSpace), r, c) == if r < Size && c < Size && f[r][c] then minSpace else 0
      ensures Flashes(Idle, ScanPass(f, minSpace), r, c) == if r < Size && c < Size && f[r][c] then 1 else 0
    {
      ScanRowsCell(f, |f|, minSpace, r, c);
    }
  }

  // ---------------------------------------------------------------------------
  // One call of `draw_frame`.

  /** The two shapes a call takes: a single wait, or whole passes. */
  lemma Unfold(f: Frame, duration: u32, minSpace: u32)
    requires LapFits(f, minSpace)
    ensures Lap(f, minSpace) == 0 ==> DrawFrame(f, duration, minSpace) == [DelayUs(duration)]
    ensures Lap(f, minSpace) > 0 ==>
              DrawFrame(f, duration, minSpace) == Repeat(ScanPass(f, minSpace), Passes(f, duration, minSpace))
  {
  }

  /** Timing of a call. With `lap` zero the whole budget is waited. Otherwise
      the call waits exactly `Passes * lap`, which is the largest multiple of
      `lap` not above the budget: the remainder is dropped, never waited out,
      and a budget shorter than one pass issues nothing at all. */
  lemma DrawFrameTiming(f: Frame, duration: u32, minSpace: u32)
    requires LapFits(f, minSpace)
    ensures Lap(f, minSpace) == 0 ==> TotalUs(DrawFrame(f, duration, minSpace)) == duration
    ensures Lap(f, minSpace) > 0 ==>
              TotalUs(DrawFrame(f, duration, minSpace)) == Passes(f, duration, minSpace) * Lap(f, minSpace)
    ensures Lap(f, minSpace) > 0 ==>
              TotalUs(DrawFrame(f, duration, minSpace)) <= duration
                < TotalUs(DrawFrame(f, duration, minSpace)) + Lap(f, minSpace)
    ensures 0 < Lap(f, minSpace) && duration < Lap(f, minSpace) ==> DrawFrame(f, duration, minSpace) == []
  {
    var lap := Lap(f, minSpace);
    var r := DrawFrame(f, duration, minSpace);
    Unfold(f, duration, minSpace);
    if lap == 0 {
      Single(Idle, DelayUs(duration));
    } else {
      var t, n := ScanPass(f, minSpace), Passes(f, duration, minSpace);
      assert r == Repeat(t, n);
      PassState(f, minSpace);
      RepeatTime(t, n);
      assert TotalUs(r) == n * lap;
      FloorDiv(duration, lap);
      if duration < lap {
        assert n == 0;
      }
    }
  }

  /** `lap` is zero exactly when the frame is dark or the pulse width is
      zero, and then the call only waits out its budget: it drives no line
      at all. */
  lemma DrawFrameDark(f: Frame, duration: u32, minSpace: u32)
    requires LapFits(f, minSpace)
    ensures Lap(f, minSpace) == 0 <==> Dark(f) || minSpace == 0
    ensures Dark(f) || minSpace == 0 ==> DrawFrame(f, duration, minSpace) == [DelayUs(duration)]
  {
    Unfold(f, duration, minSpace);
    if !Dark(f) && minSpace > 0 {
      MulAtLeast(minSpace, LitCount(f));
    }
  }

  /** A call never waits longer than its budget. */
  lemma DrawFrameWithinBudget(f: Frame, duration: u32, minSpace: u32)
    requires LapFits(f, minSpace)
    ensures TotalUs(DrawFrame(f, duration, minSpace)) <= duration
  {
    DrawFrameTiming(f, duration, minSpace);
  }

  /** `duration / lap` passes fit in the budget and one more would not. */
  lemma FloorDiv(d: nat, lap: nat)
    requires lap > 0
    ensures (d / lap) * lap <= d < (d / lap) * lap + lap
    ensures d < lap ==> d / lap == 0
  {
  }

  /** Every call starts and ends with all lines idle and never lights two
      LEDs at once; each column pulse is held for exactly `minSpace`; and the
      row events are `Passes` repetitions of rows 0..3, each enabled and
      released in ascending order. */
  lemma DrawFrameLines(f: Frame, duration: u32, minSpace: u32)
    requires LapFits(f, minSpace)
    ensures Run(Idle, DrawFrame(f, duration, minSpace)) == Idle
    ensures AllSafe(Idle, DrawFrame(f, duration, minSpace))
    ensures Paired(DrawFrame(f, duration, minSpace), minSpace)
    ensures Keep(DrawFrame(f, duration, minSpace), IsRowEvent)
              == Repeat(RowCycle(Size), Passes(f, duration, minSpace))
  {
    var lap := Lap(f, minSpace);
    var r := DrawFrame(f, duration, minSpace);
    Unfold(f, duration, minSpace);
    if lap == 0 {
      Single(Idle, DelayUs(duration));
      KeepSingle(DelayUs(duration), IsRowEvent);
    } else {
      var t, n := ScanPass(f, minSpace), Passes(f, duration, minSpace);
      assert r == Repeat(t, n);
      PassState(f, minSpace);
      RepeatIdle(t, n);
      RepeatSafe(t, n);
      ScanRowsShape(f, |f|, minSpace);
      PairedRepeat(t, n, minSpace);
      KeepRepeat(t, n, IsRowEvent);
    }
  }

  /** Every lit cell is flashed once per pass and lit for `minSpace` each
      time; an unlit cell is never lit. */
  lemma DrawFrameCells(f: Frame, duration: u32, minSpace: u32, i: nat, j: nat)
    requires LapFits(f, minSpace) && i < Size && j < Size
    ensures Flashes(Idle, DrawFrame(f, duration, minSpace), i, j)
              == if f[i][j] then Passes(f, duration, minSpace) else 0
    ensures LitUs(Idle, DrawFrame(f, duration, minSpace), i, j)
              == if f[i][j] then Passes(f, duration, minSpace) * minSpace else 0
  {
    var lap := Lap(f, minSpace);
    var r := DrawFrame(f, duration, minSpace);
    Unfold(f, duration, minSpace);
    if lap == 0 {
      Single(Idle, DelayUs(duration));
    } else {
      var t, n := ScanPass(f, minSpace), Passes(f, duration, minSpace);
      assert r == Repeat(t, n);
      ScanRowsState(f, |f|, minSpace);
      ScanRowsCell(f, |f|, minSpace, i, j);
      RepeatLitUs(t, n, i, j);
      RepeatFlashes(t, n, i, j);
    }
  }

  /** A frame with something to show waits only in `minSpace` pulse holds. */
  lemma DrawFrameWaits(f: Frame, duration: u32, minSpace: u32)
    requires LapFits(f, minSpace) && !Dark(f) && minSpace > 0
    ensures WaitsAre(DrawFrame(f, duration, minSpace), minSpace)
  {
    var t, n := ScanPass(f, minSpace), Passes(f, duration, minSpace);
    Unfold(f, duration, minSpace);
    assert WaitsAre(t, minSpace) by {
      ScanRowsShape(f, |f|, minSpace);
    }
    RepeatMembers(t, n);
  }

  // ---------------------------------------------------------------------------
  // The loops of `draw_frame`, statement by statement.

  /** The `num_on` count: walk the frame row by row and count lit cells. */
  method CountLit(f: Frame) returns (numOn: nat)
    ensures numOn == LitCount(f)
  {
    numOn := 0;
    for i := 0 to |f|
      invariant numOn == CountTrue(Flatten(f[..i]))
    {
      for j := 0 to |f[i]|
        invariant numOn == CountTrue(Flatten(f[..i])) + CountTrue(f[i][..j])
      {
        assert f[i][..j + 1][..j] == f[i][..j];
        if f[i][j] {
          numOn := numOn + 1;
        }
      }
      assert f[i][..|f[i]|] == f[i];
      assert f[..i + 1][..i] == f[..i];
      CountTrueAppend(Flatten(f[..i]), f[i]);
    }
    assert f[..|f|] == f;
  }

  /** One pass of the row loop and, inside it, the column loop. */
  method ScanOnce(f: Frame, minSpace: u32) returns (pass: seq<Event>)
    ensures pass == ScanPass(f, minSpace)
  {
    pass := [];
    for i := 0 to |f|
      invariant pass == ScanRows(f, i, minSpace)
    {
      var row := [RowLow(i)];
      for j := 0 to |f[i]|
        invariant row == [RowLow(i)] + ColumnPulses(f[i], j, minSpace)
      {
        if f[i][j] {
          row := row + [ColHigh(j), DelayUs(minSpace), ColLow(j)];
        }
      }
      pass := pass + (row + [RowHigh(i)]);
    }
  }

  /** `draw_frame` statement by statement: count the lit cells, compute
      `lap`, wait out the budget if `lap` is zero, otherwise run
      `duration / lap` passes. */
  method Render(f: Frame, duration: u32, minSpace: u32) returns (trace: seq<Event>)
    requires LapFits(f, minSpace)
    ensures trace == DrawFrame(f, duration, minSpace)
  {
    var numOn := CountLit(f);
    var lap := minSpace * numOn;
    if lap == 0 {
      trace := [DelayUs(duration)];
      return;
    }
    var loops := duration / lap;
    trace := [];
    for k := 0 to loops
      invariant trace == Repeat(ScanPass(f, minSpace), k)
    {
      var pass := ScanOnce(f, minSpace);
      trace := trace + pass;
    }
  }
}
