# 4x4 LED matrix driver, modelled in Dafny

The firmware drives a passively multiplexed 4x4 LED matrix from an STM32
board. There are four row lines, which are active-low and open-drain, and
four column lines, which are active-high. An LED is lit while its row is
pulled low and its column is driven high. The firmware has two programs:

- `src/bin/4x4-led-matrix.rs`: an animation player. `draw_frame` shows one
  4x4 boolean frame for a time budget. It counts the lit cells (`num_on`) and
  computes the pass length `lap = min_space * num_on`. If `lap` is zero, it
  waits out the budget. Otherwise it runs `duration / lap` scan passes. A pass
  enables rows 0..3 in turn. Inside a row, each lit column is driven for
  `min_space` microseconds. `main` gives every frame `1_000_000 / fps`
  microseconds and loops over the pattern forever.
- `src/main.rs`: a sweep demo. After releasing the rows, each loop turn
  drives columns 0..3 in turn. While a column is driven, the turn strobes
  rows 0..3 for `spacing` milliseconds each. Then `spacing` takes one step
  down a fixed table, starting from 250.

The model turns each program into a pure function that returns the trace of
pin and delay events it issues. A separate semantics gives a trace its
meaning:

- `Lines.Run` replays the trace on the set of enabled rows and driven columns.
- `Lines.AllSafe` checks that no state along the way enables more than one
  row or drives more than one column.
- `Lines.TotalUs` is the blocking time.
- `Lines.LitUs` and `Lines.Flashes` give how long each LED is lit, and how
  often it lights up.

The lemmas tie the programs to this semantics. The methods `Render`,
`ScanOnce`, `RunTurns` and `RunDemo` follow the source's loops statement by
statement. `CountLit` computes the lit count, which the source takes with a
single iterator expression, using two nested loops. Each method is proved
equal to the functional definition.

Modules: `Seqs` holds sequence helpers (repetition and filtering). `Lines`
holds events and their semantics. `Frames` holds frames and the lit count.
`Scanner` models `draw_frame`, `Player` models the player loop and `pat_xor`,
`Spacing` models the step table, and `Sweep` models the sweep demo.

The comment above the count in `draw_frame` says the call just waits when
no light is turned on. The guard actually tests `lap == 0`, so a lit frame
with a zero pulse width also takes that path. The model follows the guard,
and `Scanner.DrawFrameDark` states both cases.

## Model

| member | source | states |
|---|---|---|
| Frames.LitCount | src/bin/4x4-led-matrix.rs:45 | `num_on` is at most 16, and it is zero exactly when the frame is dark |
| Frames.LitCountIsCellCount | src/bin/4x4-led-matrix.rs:45 | counting `true`s over the flattened frame gives the number of lit (row, column) cells |
| Scanner.Lap | src/bin/4x4-led-matrix.rs:48 | the pass length `lap = min_space * num_on` |
| Scanner.Passes | src/bin/4x4-led-matrix.rs:50-55 | the pass count `loops = duration / lap`, none when `lap` is zero |
| Scanner.Pulse | src/bin/4x4-led-matrix.rs:73-87 | one lit cell: drive column j, wait `min_space` us, release it; `PulseShape` and `PulseCell` state it touches no row and lights only cell (row, j) |
| Scanner.ColumnPulses | src/bin/4x4-led-matrix.rs:68-88 | the inner column loop, skipping unlit cells; its contracts are the `ColumnPulses` lemmas, e.g. `ColumnPulsesToggles` |
| Scanner.ColumnPulsesToggles | src/bin/4x4-led-matrix.rs:68-88 | the column loop's column events are exactly a drive and a release per lit cell, in column order |
| Scanner.RowScan | src/bin/4x4-led-matrix.rs:59-97 | one row of a pass: enable row i, the column loop, release row i; stated by `RowScanShape` and `RowScanColumns` |
| Scanner.ScanPass | src/bin/4x4-led-matrix.rs:58-98 | one pass of the outer loop: rows 0..3 in order; stated by `PassState` and `PassCells` |
| Scanner.DrawFrame | src/bin/4x4-led-matrix.rs:33-100 | the events of one `draw_frame` call: a single `delay_us(duration)` when `lap` is zero, otherwise `loops` scan passes; its properties are stated by the `DrawFrame` lemmas below |
| Scanner.CountLit | src/bin/4x4-led-matrix.rs:45 | two nested loops over rows and cells compute the same count as the iterator expression for `num_on` |
| Scanner.ScanOnce | src/bin/4x4-led-matrix.rs:58-98 | the row loop with the nested column loop emits exactly one scan pass |
| Scanner.Render | src/bin/4x4-led-matrix.rs:33-100 | `draw_frame` statement by statement (count, `lap`, early wait, `duration / lap` passes) yields the trace `DrawFrame` defines |
| Scanner.DrawFrameDark | src/bin/4x4-led-matrix.rs:45-53 | `lap` is zero exactly when the frame is dark or `min_space` is zero; then the trace is the single `delay_us(duration)` and no line is touched |
| Scanner.DrawFrameTiming | src/bin/4x4-led-matrix.rs:48-57 | with `lap` zero the whole budget is waited; otherwise the call waits `loops * lap`, which is at most `duration` and more than `duration - lap`; a budget below one pass gives an empty trace |
| Scanner.DrawFrameWithinBudget | src/bin/4x4-led-matrix.rs:48-57 | a call never waits longer than its budget |
| Scanner.DrawFrameLines | src/bin/4x4-led-matrix.rs:57-99 | from idle lines the call ends idle, never enables two rows or drives two columns at once, holds every column pulse for exactly `min_space`, and its row events are `loops` repetitions of RowLow(0), RowHigh(0), ..., RowLow(3), RowHigh(3) |
| Scanner.DrawFrameCells | src/bin/4x4-led-matrix.rs:57-88 | LED (i, j) lights up `loops` times, for `loops * min_space` in all, if the cell is lit, and never otherwise |
| Scanner.DrawFrameWaits | src/bin/4x4-led-matrix.rs:57-88 | for a lit frame with positive pulse width, every wait in the trace is a `min_space` pulse hold |
| Scanner.RowScanShape | src/bin/4x4-led-matrix.rs:58-97 | a row scan enables and releases only its own row; its column events are exactly a drive and a release for each lit cell of the row, in column order, twice the row's lit count in number; and every drive is followed by DelayUs(min_space) and then the release |
| Scanner.RowScanColumns | src/bin/4x4-led-matrix.rs:68-88 | inside row i, the driven columns are exactly the lit cells of that row, in ascending column order, one pulse per lit cell |
| Scanner.PassState | src/bin/4x4-led-matrix.rs:58-98 | a pass starts and ends idle, keeps the one-row/one-column discipline and waits exactly `lap` |
| Scanner.PassCells | src/bin/4x4-led-matrix.rs:58-98 | a pass lights each lit cell once for `min_space` and no other cell |
| Player.FrameBudget | src/bin/4x4-led-matrix.rs:141-145 | `frame_space` is the floor of one second divided by `fps` |
| Player.MainBudget | src/bin/4x4-led-matrix.rs:141-145 | at 10 frames per second each frame gets 100000 us, and at the pulse width 50 no frame overflows `lap` |
| Player.DrawAll | src/bin/4x4-led-matrix.rs:150-159 | one `draw_frame` call per frame of a list, in list order, each with the same budget |
| Player.Play | src/bin/4x4-led-matrix.rs:141-160 | the events of a given number of rounds of the player loop, each frame drawn with budget `1_000_000 / fps` |
| Player.Schedule | src/bin/4x4-led-matrix.rs:149-150 | the frames drawn by a number of rounds of `loop { for frame in &frames }`; `ScheduleOrder` states its order |
| Player.ScheduleOrder | src/bin/4x4-led-matrix.rs:149-160 | draw call k shows frame k mod n: frames in index order, restarting after the last |
| Player.DrawAllTime | src/bin/4x4-led-matrix.rs:150-159 | drawing n frames waits at most n frame budgets |
| Player.PlayLines | src/bin/4x4-led-matrix.rs:141-160 | any number of player rounds ends idle, keeps the multiplexing discipline and stays within rounds * frames budgets |
| Player.XorComplement | src/bin/4x4-led-matrix.rs:480-496 | the two `pat_xor` frames are cell-wise complements |
| Spacing.NextSpacing | src/main.rs:149-161 | the step never increases `spacing` and keeps a positive spacing positive |
| Spacing.StepMatchesTable | src/main.rs:149-161 | listed values go to their table successor, which is smaller; every other value is unchanged |
| Spacing.Iterate | src/main.rs:149-161 | the spacing after a given number of turns, each applying the step table once |
| Spacing.IterateBounds | src/main.rs:149-161 | any number of steps never increases `spacing` and keeps it positive |
| Spacing.FixedPointStays | src/main.rs:160 | a value the step leaves alone, such as 1, stays forever |
| Spacing.FollowsOrbit | src/main.rs:81 | from 250 the spacing runs through 250, 150, 75, 40, 20, 10, 9, 8, 5, 1 one turn at a time |
| Spacing.ReachesOne | src/main.rs:149-161 | from 250 the spacing is 1 exactly from the 9th step on, and it is never 400 |
| Spacing.Settles | src/main.rs:150-160 | from any start, ten steps reach a fixed point of the table |
| Spacing.DemoSpacingSum | src/main.rs:81-161 | the first nine turns use 567 ms of spacing in all, and every later turn uses 1 ms |
| Sweep.Strobe | src/main.rs:86-88 | enable row i, wait `spacing` ms, release row i; `StrobeShape` and `StrobeCell` state it drives no column |
| Sweep.Strobes | src/main.rs:86-97 | rows 0..3 strobed in order inside one column; stated by the `Strobes` lemmas |
| Sweep.ColumnSweep | src/main.rs:84-99 | drive column j, strobe the rows, release column j; stated by the `ColumnSweep` lemmas |
| Sweep.Sweeps | src/main.rs:84-147 | columns 0..3 swept in order; stated by the `Sweeps` lemmas |
| Sweep.SweepIteration | src/main.rs:84-147 | the events of one loop turn: columns 0..3 in turn, each driven while rows 0..3 are strobed for `spacing` ms |
| Sweep.Startup | src/main.rs:58-61 | the release of rows 0..3 before the loop |
| Sweep.SweepLoop | src/main.rs:83-165 | a given number of loop turns, the spacing stepped after each |
| Sweep.SweepDemo | src/main.rs:58-165 | start-up followed by a given number of loop turns from the initial spacing |
| Sweep.StartupReleases | src/main.rs:58-61 | from any state with no column driven, whichever rows were enabled, releasing rows 0..3 brings every line to idle |
| Sweep.IterationLines | src/main.rs:84-147 | one turn drives columns 0..3 in order, strobes rows 0..3 inside each column, issues exactly 16 `delay_ms(spacing)` (16 * spacing ms in all), ends idle and never enables two rows or drives two columns at once |
| Sweep.IterationCells | src/main.rs:84-147 | in one turn every LED lights up exactly once, for `spacing` ms |
| Sweep.LoopStep | src/main.rs:83-165 | turn n + 1 runs with the spacing reached after n table steps |
| Sweep.LoopLines | src/main.rs:83-165 | any number of turns ends idle, keeps the discipline and waits 16 ms per ms of spacing used |
| Sweep.DemoLines | src/main.rs:58-165 | from any state with every column low, start-up brings the lines to idle; the demo never enables two rows or drives two columns at once, is idle again after n turns, and has waited 16 * (567 + (n - 9)) ms once n >= 9 |
| Sweep.RunTurns | src/main.rs:83-165 | the loop, run n times with the spacing stepped after each turn, yields the n-turn trace and the n-step spacing |
| Sweep.RunDemo | src/main.rs:58-165 | start-up plus n loop turns from 250 yields the demo trace and leaves `spacing` at the value n steps reach |

## Left out

- Peripheral and clock setup (`Peripherals::take`, GPIO `split`, output modes, `Delay::new`): hardware configuration. Pins appear only as trace events. The player's traces start from the idle state, with rows released and columns low, which the code sets explicitly at `src/bin/4x4-led-matrix.rs` lines 127-135. The sweep demo starts from any state whose columns are low, with any rows enabled. `src/main.rs` never drives its columns low before the loop, so the model assumes they start low, as they do after reset.
- The real blocking delay: a `DelayUs`/`DelayMs` event carries its argument and its duration. No clock is modelled.
- `.expect(...)` on GPIO calls and the `panic!` match arms: GPIO failure is outside the model. Row and column indices are bounded by the 4x4 frame.
- The endless `loop {}` of both programs: modelled as any finite number of rounds (`Player.Play`) or turns (`Sweep.SweepLoop`).
- `hprintln!`, the `TGL` flag, the `EXTI15_10` interrupt handler and the commented-out code in `src/main.rs`: output, unused concurrency scaffolding and dead code.
- The pattern tables `pat_spiral_trail`, `pat_spiral` and `pat_spinner`: animation data. The player is modelled for any pattern, and `main` draws `pat_spiral_trail`.
- Scanner.DrawFrame: requires that `min_space * num_on` fits in a `u32`. The source does not guard this product, which panics in debug builds and wraps in release builds. The model excludes the overflowing inputs instead of modelling either outcome. With `min_space` = 50, as in `main`, it never overflows.
- Scanner.Render: carries the same `u32` precondition as `Scanner.DrawFrame`, for the same reason.
- Player.FrameBudget: requires `fps >= 1`. The source divides by `fps` and fixes it at 10.
