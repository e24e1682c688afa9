/** The sweep demo in `main` of src/main.rs.

    After releasing every row, the demo loops forever. Each iteration drives
    columns 0..3 in turn. While a column is driven it strobes rows 0..3: enable
    the row, wait `spacing` milliseconds, release it. After the iteration,
    `spacing` takes one step down the table of the `Spacing` module. The source
    loops forever; the model covers any finite number of iterations. */
module Sweep {
  import opened Seqs
  import opened Lines
  import opened Frames
  import opened Spacing

  /** Column `j` driven, no row enabled: the state between two strobes. */
  function ColOn(j: nat): LineState {
    LineState({}, {j})
  }

  /** Enable row `i` for `spacing` milliseconds, then release it. */
  function Strobe(i: nat, spacing: nat): seq<Event> {
    [RowLow(i), DelayMs(spacing), RowHigh(i)]
  }

  /** Strobes of rows 0 .. n-1, in order. */
  function Strobes(n: nat, spacing: nat): seq<Event> {
    if n == 0 then [] else Strobes(n - 1, spacing) + Strobe(n - 1, spacing)
  }

  /** Drive column `j`, strobe rows 0 .. rows-1, release the column. */
  function ColumnSweep(j: nat, rows: nat, spacing: nat): seq<Event> {
    [ColHigh(j)] + Strobes(rows, spacing) + [ColLow(j)]
  }

  /** Column sweeps of columns 0 .. n-1, in order. */
  function Sweeps(n: nat, rows: nat, spacing: nat): seq<Event> {
    if n == 0 then [] else Sweeps(n - 1, rows, spacing) + ColumnSweep(n - 1, rows, spacing)
  }

  /** One turn of the demo loop over the 4x4 matrix, before `spacing` is stepped. */
  function SweepIteration(spacing: u16): seq<Event> {
    Sweeps(Size, Size, spacing)
  }

  /** `n` turns of a loop that emits `body(spacing)` and then steps `spacing`;
      each turn uses the spacing the previous one left behind. */
  function Turns(body: u16 -> seq<Event>, spacing: u16, n: nat): seq<Event> {
    if n == 0 then [] else body(spacing) + Turns(body, NextSpacing(spacing), n - 1)
  }

  /** `n` turns of the demo loop starting with `spacing`. */
  function SweepLoop(spacing: u16, n: nat): seq<Event> {
    Turns(SweepIteration, spacing, n)
  }

  /** Releasing rows 0..3 before the loop. */
  function Startup(): seq<Event> {
    [RowHigh(0), RowHigh(1), RowHigh(2), RowHigh(3)]
  }

  /** The demo's events up to the end of its `n`-th loop turn. */
  function SweepDemo(n: nat): seq<Event> {
    Startup() + SweepLoop(InitialSpacing, n)
  }

  // ---------------------------------------------------------------------------
  // One strobe, inside column `j`.

  lemma StrobeState(j: nat, i: nat, spacing: nat)
    ensures Run(ColOn(j), Strobe(i, spacing)) == ColOn(j)
    ensures AllSafe(ColOn(j), Strobe(i, spacing))
  {
    var s0, s1 := ColOn(j), LineState({i}, {j});
    var down, hold, up := [RowLow(i)], [DelayMs(spacing)], [RowHigh(i)];
    assert Strobe(i, spacing) == down + hold + up;
    Single(s0, RowLow(i));
    Single(s1, DelayMs(spacing));
    Single(s1, RowHigh(i));
    assert Apply(s1, RowHigh(i)) == s0;
    RunAppend(s0, down, hold);
    RunAppend(s0, down + hold, up);
    AllSafeAppend(s0, down, hold);
    AllSafeAppend(s0, down + hold, up);
  }

  lemma StrobeTime(i: nat, spacing: nat)
    ensures TotalUs(Strobe(i, spacing)) == 1000 * spacing
  {
    var down, hold, up := [RowLow(i)], [DelayMs(spacing)], [RowHigh(i)];
    assert Strobe(i, spacing) == down + hold + up;
    Single(Idle, RowLow(i));
    Single(Idle, DelayMs(spacing));
    Single(Idle, RowHigh(i));
    TotalUsAppend(down, hold);
    TotalUsAppend(down + hold, up);
  }

  lemma StrobeCell(j: nat, i: nat, spacing: nat, r: nat, c: nat)
    ensures LitUs(ColOn(j), Strobe(i, spacing), r, c) == if r == i && c == j then 1000 * spacing else 0
    ensures Flashes(ColOn(j), Strobe(i, spacing), r, c) == if r == i && c == j then 1 else 0
  {
    var s0, s1 := ColOn(j), LineState({i}, {j});
    var down, hold, up := [RowLow(i)], [DelayMs(spacing)], [RowHigh(i)];
    assert Strobe(i, spacing) == down + hold + up;
    Single(s0, RowLow(i));
    Single(s1, DelayMs(spacing));
    Single(s1, RowHigh(i));
    RunAppend(s0, down, hold);
    LitUsAppend(s0, down, hold, r, c);
    LitUsAppend(s0, down + hold, up, r, c);
    FlashesAppend(s0, down, hold, r, c);
    FlashesAppend(s0, down + hold, up, r, c);
  }

  /** The events of a strobe kept by `p`. */
  lemma StrobeKeep(i: nat, spacing: nat, p: Event -> bool)
    ensures Keep(Strobe(i, spacing), p)
              == (if p(RowLow(i)) then [RowLow(i)] else [])
               + (if p(DelayMs(spacing)) then [DelayMs(spacing)] else [])
               + (if p(RowHigh(i)) then [RowHigh(i)] else [])
  {
    KeepTriple(RowLow(i), DelayMs(spacing), RowHigh(i), p);
  }

  lemma StrobeShape(i: nat, spacing: nat)
    ensures Keep(Strobe(i, spacing), IsRowEvent) == [RowLow(i), RowHigh(i)]
    ensures Keep(Strobe(i, spacing), IsColEvent) == []
    ensures Keep(Strobe(i, spacing), IsDelay) == [DelayMs(spacing)]
  {
    StrobeKeep(i, spacing, IsRowEvent);
    StrobeKeep(i, spacing, IsColEvent);
    StrobeKeep(i, spacing, IsDelay);
  }

  // ---------------------------------------------------------------------------
  // The row strobes of one column.

  lemma {:induction false} StrobesState(j: nat, n: nat, spacing: nat)
    ensures Run(ColOn(j), Strobes(n, spacing)) == ColOn(j)
    ensures AllSafe(ColOn(j), Strobes(n, spacing))
  {
    if n > 0 {
      StrobesState(j, n - 1, spacing);
      var head, last := Strobes(n - 1, spacing), Strobe(n - 1, spacing);
      RunAppend(ColOn(j), head, last);
      AllSafeAppend(ColOn(j), head, last);
      StrobeState(j, n - 1, spacing);
    }
  }

  lemma {:induction false} StrobesTime(n: nat, spacing: nat)
    ensures TotalUs(Strobes(n, spacing)) == 1000 * spacing * n
  {
    if n > 0 {
      StrobesTime(n - 1, spacing);
      var head, last := Strobes(n - 1, spacing), Strobe(n - 1, spacing);
      TotalUsAppend(head, last);
      StrobeTime(n - 1, spacing);
      MulSucc(1000 * spacing, n - 1);
    }
  }

  lemma {:induction false} StrobesCell(j: nat, n: nat, spacing: nat, r: nat, c: nat)
    ensures LitUs(ColOn(j), Strobes(n, spacing), r, c) == if c == j && r < n then 1000 * spacing else 0
    ensures Flashes(ColOn(j), Strobes(n, spacing), r, c) == if c == j && r < n then 1 else 0
  {
    if n > 0 {
      StrobesCell(j, n - 1, spacing, r, c);
      var head, last := Strobes(n - 1, spacing), Strobe(n - 1, spacing);
      StrobesState(j, n - 1, spacing);
      LitUsAppend(ColOn(j), head, last, r, c);
      FlashesAppend(ColOn(j), head, last, r, c);
      StrobeCell(j, n - 1, spacing, r, c);
    }
  }

  lemma {:induction false} StrobesShape(n: nat, spacing: nat)
    ensures Keep(Strobes(n, spacing), IsRowEvent) == RowCycle(n)
    ensures Keep(Strobes(n, spacing), IsColEvent) == []
    ensures Keep(Strobes(n, spacing), IsDelay) == Repeat([DelayMs(spacing)], n)
  {
    if n == 0 {
      assert RowCycle(0) == [];
    } else {
      StrobesShape(n - 1, spacing);
      var head, last := Strobes(n - 1, spacing), Strobe(n - 1, spacing);
      assert Strobes(n, spacing) == head + last;
      StrobeShape(n - 1, spacing);
      assert Keep(head + last, IsRowEvent) == RowCycle(n) by {
        KeepSnoc(head, last, IsRowEvent, [RowLow(n - 1), RowHigh(n - 1)]);
        RowCycleStep(n - 1);
      }
      assert Keep(head + last, IsColEvent) == [] by {
        KeepSnoc(head, last, IsColEvent, []);
      }
      assert Keep(head + last, IsDelay) == Repeat([DelayMs(spacing)], n) by {
        KeepSnoc(head, last, IsDelay, [DelayMs(spacing)]);
      }
    }
  }

  // ---------------------------------------------------------------------------
  // One column, from idle to idle.

  lemma ColumnSweepState(j: nat, rows: nat, spacing: nat)
    ensures Run(Idle, ColumnSweep(j, rows, spacing)) == Idle
    ensures AllSafe(Idle, ColumnSweep(j, rows, spacing))
  {
    var up, mid, down := [ColHigh(j)], Strobes(rows, spacing), [ColLow(j)];
    Single(Idle, ColHigh(j));
    assert Apply(Idle, ColHigh(j)) == ColOn(j);
    StrobesState(j, rows, spacing);
    Single(ColOn(j), ColLow(j));
    assert Apply(ColOn(j), ColLow(j)) == Idle;
    RunAppend(Idle, up, mid);
    RunAppend(Idle, up + mid, down);
    AllSafeAppend(Idle, up, mid);
    AllSafeAppend(Idle, up + mid, down);
  }

  lemma ColumnSweepTime(j: nat, rows: nat, spacing: nat)
    ensures TotalUs(ColumnSweep(j, rows, spacing)) == 1000 * spacing * rows
  {
    var up, mid, down := [ColHigh(j)], Strobes(rows, spacing), [ColLow(j)];
    Single(Idle, ColHigh(j));
    Single(Idle, ColLow(j));
    StrobesTime(rows, spacing);
    TotalUsAppend(up, mid);
    TotalUsAppend(up + mid, down);
  }

  lemma ColumnSweepLitUs(j: nat, rows: nat, spacing: nat, r: nat, c: nat)
    ensures LitUs(Idle, ColumnSweep(j, rows, spacing), r, c) == if c == j && r < rows then 1000 * spacing else 0
  {
    var up, mid, down := [ColHigh(j)], Strobes(rows, spacing), [ColLow(j)];
    Single(Idle, ColHigh(j));
    assert Apply(Idle, ColHigh(j)) == ColOn(j);
    StrobesState(j, rows, spacing);
    StrobesCell(j, rows, spacing, r, c);
    Single(ColOn(j), ColLow(j));
    RunAppend(Idle, up, mid);
    LitUsAppend(Idle, up, mid, r, c);
    LitUsAppend(Idle, up + mid, down, r, c);
  }

  lemma ColumnSweepFlashes(j: nat, rows: nat, spacing: nat, r: nat, c: nat)
    ensures Flashes(Idle, ColumnSweep(j, rows, spacing), r, c) == if c == j && r < rows then 1 else 0
  {
    var up, mid, down := [ColHigh(j)], Strobes(rows, spacing), [ColLow(j)];
    Single(Idle, ColHigh(j));
    assert Apply(Idle, ColHigh(j)) == ColOn(j);
    StrobesState(j, rows, spacing);
    StrobesCell(j, rows, spacing, r, c);
    Single(ColOn(j), ColLow(j));
    RunAppend(Idle, up, mid);
    FlashesAppend(Idle, up, mid, r, c);
    FlashesAppend(Idle, up + mid, down, r, c);
  }

  /** The events of a column sweep kept by `p`. */
  lemma ColumnSweepKeep(j: nat, rows: nat, spacing: nat, p: Event -> bool)
    ensures Keep(ColumnSweep(j, rows, spacing), p)
              == (if p(ColHigh(j)) then [ColHigh(j)] else [])
               + Keep(Strobes(rows, spacing), p)
               + (if p(ColLow(j)) then [ColLow(j)] else [])
  {
    var up, mid, down := [ColHigh(j)], Strobes(rows, spacing), [ColLow(j)];
    KeepSingle(ColHigh(j), p);
    KeepSingle(ColLow(j), p);
    KeepAppend(up, mid, p);
    KeepAppend(up + mid, down, p);
  }

  lemma ColumnSweepShape(j: nat, rows: nat, spacing: nat)
    ensures Keep(ColumnSweep(j, rows, spacing), IsRowEvent) == RowCycle(rows)
    ensures Keep(ColumnSweep(j, rows, spacing), IsColEvent) == [ColHigh(j), ColLow(j)]
    ensures Keep(ColumnSweep(j, rows, spacing), IsDelay) == Repeat([DelayMs(spacing)], rows)
  {
    StrobesShape(rows, spacing);
    ColumnSweepKeep(j, rows, spacing, IsRowEvent);
    ColumnSweepKeep(j, rows, spacing, IsColEvent);
    ColumnSweepKeep(j, rows, spacing, IsDelay);
  }

  // ---------------------------------------------------------------------------
  // The column loop.

  /** Column sweeps return the lines to idle. Kept apart from `SweepsState`
      so that proofs about lit time need not carry the safety facts. */
  lemma {:induction false} SweepsRun(n: nat, rows: nat, spacing: nat)
    ensures Run(Idle, Sweeps(n, rows, spacing)) == Idle
  {
    if n > 0 {
      SweepsRun(n - 1, rows, spacing);
      var head, last := Sweeps(n - 1, rows, spacing), ColumnSweep(n - 1, rows, spacing);
      assert Sweeps(n, rows, spacing) == head + last;
      assert Run(Idle, last) == Idle by {
        ColumnSweepState(n - 1, rows, spacing);
      }
      RunAppend(Idle, head, last);
    }
  }

  lemma {:induction false} SweepsState(n: nat, rows: nat, spacing: nat)
    ensures Run(Idle, Sweeps(n, rows, spacing)) == Idle
    ensures AllSafe(Idle, Sweeps(n, rows, spacing))
  {
    if n > 0 {
      SweepsState(n - 1, rows, spacing);
      var head, last := Sweeps(n - 1, rows, spacing), ColumnSweep(n - 1, rows, spacing);
      RunAppend(Idle, head, last);
      AllSafeAppend(Idle, head, last);
      ColumnSweepState(n - 1, rows, spacing);
    }
  }

  lemma {:induction false} SweepsTime(n: nat, rows: nat, spacing: nat)
    ensures TotalUs(Sweeps(n, rows, spacing)) == 1000 * spacing * rows * n
  {
    if n > 0 {
      SweepsTime(n - 1, rows, spacing);
      var head, last := Sweeps(n - 1, rows, spacing), ColumnSweep(n - 1, rows, spacing);
      TotalUsAppend(head, last);
      ColumnSweepTime(n - 1, rows, spacing);
      MulSucc(1000 * spacing * rows, n - 1);
    }
  }

  lemma {:induction false} SweepsLitUs(n: nat, rows: nat, spacing: nat, r: nat, c: nat)
    ensures LitUs(Idle, Sweeps(n, rows, spacing), r, c) == if r < rows && c < n then 1000 * spacing else 0
  {
    if n > 0 {
      var head, last := Sweeps(n - 1, rows, spacing), ColumnSweep(n - 1, rows, spacing);
      SweepsLitUs(n - 1, rows, spacing, r, c);
      ColumnSweepLitUs(n - 1, rows, spacing, r, c);
      SweepsRun(n - 1, rows, spacing);
      CellsJoin(Idle, head, last, r, c);
      assert Sweeps(n, rows, spacing) == head + last;
    }
  }

  lemma {:induction false} SweepsFlashes(n: nat, rows: nat, spacing: nat, r: nat, c: nat)
    ensures Flashes(Idle, Sweeps(n, rows, spacing), r, c) == if r < rows && c < n then 1 else 0
  {
    if n > 0 {
      var head, last := Sweeps(n - 1, rows, spacing), ColumnSweep(n - 1, rows, spacing);
      SweepsFlashes(n - 1, rows, spacing, r, c);
      ColumnSweepFlashes(n - 1, rows, spacing, r, c);
      SweepsRun(n - 1, rows, spacing);
      CellsJoin(Idle, head, last, r, c);
      assert Sweeps(n, rows, spacing) == head + last;
    }
  }

  lemma {:induction false} SweepsRows(n: nat, rows: nat, spacing: nat)
    ensures Keep(Sweeps(n, rows, spacing), IsRowEvent) == Repeat(RowCycle(rows), n)
  {
    if n > 0 {
      var head, last := Sweeps(n - 1, rows, spacing), ColumnSweep(n - 1, rows, spacing);
      SweepsRows(n - 1, rows, spacing);
      KeepAppend(head, last, IsRowEvent);
      ColumnSweepShape(n - 1, rows, spacing);
    }
  }

  lemma {:induction false} SweepsCols(n: nat, rows: nat, spacing: nat)
    ensures Keep(Sweeps(n, rows, spacing), IsColEvent) == ColCycle(n)
  {
    if n == 0 {
      assert ColCycle(0) == [];
    } else {
      var head, last := Sweeps(n - 1, rows, spacing), ColumnSweep(n - 1, rows, spacing);
      SweepsCols(n - 1, rows, spacing);
      KeepAppend(head, last, IsColEvent);
      ColumnSweepShape(n - 1, rows, spacing);
      ColCycleStep(n - 1);
    }
  }

  lemma {:induction false} SweepsDelays(n: nat, rows: nat, spacing: nat)
    ensures Keep(Sweeps(n, rows, spacing), IsDelay) == Repeat([DelayMs(spacing)], rows * n)
  {
    if n > 0 {
      var head, last := Sweeps(n - 1, rows, spacing), ColumnSweep(n - 1, rows, spacing);
      SweepsDelays(n - 1, rows, spacing);
      KeepAppend(head, last, IsDelay);
      ColumnSweepShape(n - 1, rows, spacing);
      MulSucc(rows, n - 1);
      RepeatAdd([DelayMs(spacing)], rows * (n - 1), rows);
    }
  }

  // ---------------------------------------------------------------------------
  // Properties of one loop turn and of the whole demo.

  /** One loop turn starts and ends with every line idle and never lights two
      LEDs at once. Columns are driven 0..3, each released before the next;
      within each column rows are strobed 0..3, each released before the next.
      It makes 16 waits, all of `spacing` ms, 16 * `spacing` ms in total. */
  lemma IterationLines(spacing: u16)
    ensures Run(Idle, SweepIteration(spacing)) == Idle
    ensures AllSafe(Idle, SweepIteration(spacing))
    ensures Keep(SweepIteration(spacing), IsColEvent) == ColCycle(Size)
    ensures Keep(SweepIteration(spacing), IsRowEvent) == Repeat(RowCycle(Size), Size)
    ensures Keep(SweepIteration(spacing), IsDelay) == Repeat([DelayMs(spacing)], 16)
    ensures TotalUs(SweepIteration(spacing)) == 16 * 1000 * spacing
  {
    SweepsState(Size, Size, spacing);
    SweepsRows(Size, Size, spacing);
    SweepsCols(Size, Size, spacing);
    SweepsDelays(Size, Size, spacing);
    SweepsTime(Size, Size, spacing);
  }

  /** In one loop turn every LED of the matrix lights up exactly once, for
      `spacing` ms. */
  lemma IterationCells(spacing: u16, r: nat, c: nat)
    requires r < Size && c < Size
    ensures LitUs(Idle, SweepIteration(spacing), r, c) == 1000 * spacing
    ensures Flashes(Idle, SweepIteration(spacing), r, c) == 1
  {
    SweepsLitUs(Size, Size, spacing, r, c);
    SweepsFlashes(Size, Size, spacing, r, c);
  }

  /** Turn `n + 1` of a loop runs with the spacing reached after `n` steps. */
  lemma {:induction false} TurnsStep(body: u16 -> seq<Event>, spacing: u16, n: nat)
    ensures Turns(body, spacing, n + 1) == Turns(body, spacing, n) + body(Iterate(spacing, n))
  {
    var next := NextSpacing(spacing);
    if n == 0 {
      assert Turns(body, next, 0) == [];
      assert Turns(body, spacing, 1) == body(spacing) + [];
    } else {
      TurnsStep(body, next, n - 1);
      var first, mid, last := body(spacing), Turns(body, next, n - 1), body(Iterate(next, n - 1));
      assert Iterate(spacing, n) == Iterate(next, n - 1);
      assert Turns(body, spacing, n + 1) == first + (mid + last);
      assert Turns(body, spacing, n) == first + mid;
      assert first + (mid + last) == (first + mid) + last;
    }
  }

  /** A loop whose body goes from idle to idle safely does the same over any
      number of turns. */
  lemma {:induction false} TurnsState(body: u16 -> seq<Event>, spacing: u16, n: nat)
    requires forall s: u16 :: Run(Idle, body(s)) == Idle && AllSafe(Idle, body(s))
    ensures Run(Idle, Turns(body, spacing, n)) == Idle
    ensures AllSafe(Idle, Turns(body, spacing, n))
  {
    if n > 0 {
      var first, rest := body(spacing), Turns(body, NextSpacing(spacing), n - 1);
      TurnsState(body, NextSpacing(spacing), n - 1);
      RunAppend(Idle, first, rest);
      AllSafeAppend(Idle, first, rest);
    }
  }

  /** A loop whose body waits `rate` us per ms of spacing waits `rate` us per
      ms of all the spacings it goes through. */
  lemma {:induction false} TurnsTime(body: u16 -> seq<Event>, rate: nat, spacing: u16, n: nat)
    requires forall s: u16 :: TotalUs(body(s)) == rate * s
    ensures TotalUs(Turns(body, spacing, n)) == rate * SpacingSum(spacing, n)
  {
    if n > 0 {
      var first, rest := body(spacing), Turns(body, NextSpacing(spacing), n - 1);
      TurnsTime(body, rate, NextSpacing(spacing), n - 1);
      TotalUsAppend(first, rest);
      assert TotalUs(first) == rate * spacing;
      MulAdd(rate, spacing, SpacingSum(NextSpacing(spacing), n - 1));
    }
  }

  /** Turn `n + 1` of the demo loop runs with the spacing reached after `n`
      steps of the table. */
  lemma LoopStep(spacing: u16, n: nat)
    ensures SweepLoop(spacing, n + 1) == SweepLoop(spacing, n) + SweepIteration(Iterate(spacing, n))
  {
    TurnsStep(SweepIteration, spacing, n);
  }

  /** Any number of demo loop turns keeps the multiplexing discipline, ends
      idle, and waits 16 ms for every ms of spacing used along the way. */
  lemma LoopLines(spacing: u16, n: nat)
    ensures Run(Idle, SweepLoop(spacing, n)) == Idle
    ensures AllSafe(Idle, SweepLoop(spacing, n))
    ensures TotalUs(SweepLoop(spacing, n)) == 16 * 1000 * SpacingSum(spacing, n)
  {
    forall s: u16
      ensures Run(Idle, SweepIteration(s)) == Idle && AllSafe(Idle, SweepIteration(s))
      ensures TotalUs(SweepIteration(s)) == 16 * 1000 * s
    {
      IterationLines(s);
    }
    TurnsState(SweepIteration, spacing, n);
    TurnsTime(SweepIteration, 16 * 1000, spacing, n);
  }

  /** Releasing rows 0..3 at start-up brings the lines to idle from any state
      in which no column is driven, whichever rows were enabled; it waits for
      nothing. */
  lemma StartupReleases(s: LineState)
    requires s.colsHigh == {} && s.rowsLow <= {0, 1, 2, 3}
    ensures Run(s, Startup()) == Idle
    ensures TotalUs(Startup()) == 0
  {
    var t := Startup();
    var s1 := Apply(s, RowHigh(0));
    var s2 := Apply(s1, RowHigh(1));
    var s3 := Apply(s2, RowHigh(2));
    var s4 := Apply(s3, RowHigh(3));
    assert Run(s4, t[4..]) == s4;
    assert Run(s3, t[3..]) == s4;
    assert Run(s2, t[2..]) == s4;
    assert Run(s1, t[1..]) == s4;
    assert s4.rowsLow == s.rowsLow - {0} - {1} - {2} - {3} == {};
  }

  /** From idle, start-up never enables a row or drives a column. */
  lemma StartupSafe()
    ensures AllSafe(Idle, Startup())
  {
  }

  /** Whatever follows start-up runs from idle, keeps its safety, and no
      time is added. */
  lemma StartupThen(s: LineState, rest: seq<Event>)
    requires s.colsHigh == {} && s.rowsLow <= {0, 1, 2, 3}
    ensures Run(s, Startup() + rest) == Run(Idle, rest)
    ensures AllSafe(Idle, rest) ==> AllSafe(Idle, Startup() + rest)
    ensures TotalUs(Startup() + rest) == TotalUs(rest)
  {
    var head := Startup();
    assert Run(s, head + rest) == Run(Idle, rest) by {
      StartupReleases(s);
      RunAppend(s, head, rest);
    }
    assert AllSafe(Idle, rest) ==> AllSafe(Idle, head + rest) by {
      StartupSafe();
      StartupReleases(Idle);
      AllSafeAppend(Idle, head, rest);
    }
    assert TotalUs(head + rest) == TotalUs(rest) by {
      StartupReleases(s);
      TotalUsAppend(head, rest);
    }
  }

  /** The demo as a whole, from any state with every column low: start-up
      brings the lines to idle; from there no two rows are ever enabled and
      no two columns driven together, and after `n` turns the lines are idle
      again. From the 9th turn on each turn takes 16 ms, so the demo has
      waited 16 * (567 + (n - 9)) ms after `n >= 9` turns. */
  lemma DemoLines(s: LineState, n: nat)
    requires s.colsHigh == {} && s.rowsLow <= {0, 1, 2, 3}
    ensures Run(s, Startup()) == Idle
    ensures AllSafe(Idle, SweepLoop(InitialSpacing, n))
    ensures AllSafe(Idle, SweepDemo(n))
    ensures Run(s, SweepDemo(n)) == Idle
    ensures TotalUs(SweepDemo(n)) == 16 * 1000 * SpacingSum(InitialSpacing, n)
    ensures n >= 9 ==> TotalUs(SweepDemo(n)) == 16 * 1000 * (567 + (n - 9))
  {
    var rest := SweepLoop(InitialSpacing, n);
    StartupReleases(s);
    LoopLines(InitialSpacing, n);
    StartupThen(s, rest);
    if n >= 9 {
      DemoSpacingSum(n);
    }
  }

  /** The loop skeleton as a loop: `n` turns, stepping the spacing after each. */
  method RunTurns(body: u16 -> seq<Event>, start: u16, n: nat) returns (trace: seq<Event>, spacing: u16)
    ensures trace == Turns(body, start, n)
    ensures spacing == Iterate(start, n)
  {
    trace := [];
    spacing := start;
    var k := 0;
    while k < n
      invariant k <= n
      invariant spacing == Iterate(start, k)
      invariant trace == Turns(body, start, k)
    {
      TurnsStep(body, start, k);
      IterateSucc(start, k);
      trace := trace + body(spacing);
      spacing := NextSpacing(spacing);
      k := k + 1;
    }
  }

  /** The demo: release the rows, then run `n` turns of the sweep loop from
      the initial spacing. */
  method RunDemo(n: nat) returns (trace: seq<Event>, spacing: u16)
    ensures trace == SweepDemo(n)
    ensures spacing == Iterate(InitialSpacing, n)
  {
    var turns;
    turns, spacing := RunTurns(SweepIteration, InitialSpacing, n);
    trace := Startup() + turns;
  }
}
