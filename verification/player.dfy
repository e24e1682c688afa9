/** The animation player in `main` of src/bin/4x4-led-matrix.rs: every frame of
    a pattern is drawn in order with the same budget `1_000_000 / fps`
    microseconds, and the pattern restarts after its last frame. The source
    loops forever; the model covers any finite number of rounds. */
module Player {
  import opened Seqs
  import opened Lines
  import opened Frames
  import opened Scanner

  /** The rate and pulse width `main` uses. */
  const Fps: u32 := 10
  const MinSpace: u32 := 50

  const MicrosPerSecond: nat := 1000 * 1000

  /** `frame_space`: the whole number of microseconds each frame gets. */
  function FrameBudget(fps: u32): (b: u32)
    requires fps >= 1
    ensures b * fps <= MicrosPerSecond < b * fps + fps
  {
    FloorDiv(MicrosPerSecond, fps);
    MicrosPerSecond / fps
  }

  /** No frame of the pattern overflows `lap` at this pulse width. */
  predicate AllFit(frames: seq<Frame>, minSpace: nat) {
    forall f :: f in frames ==> LapFits(f, minSpace)
  }

  /** One `draw_frame` call per frame, in sequence order. */
  function DrawAll(frames: seq<Frame>, budget: u32, minSpace: u32): seq<Event>
    requires AllFit(frames, minSpace)
  {
    if |frames| == 0 then []
    else DrawAll(frames[..|frames| - 1], budget, minSpace) + DrawFrame(frames[|frames| - 1], budget, minSpace)
  }

  /** The frames visited by `rounds` turns of the endless outer loop. */
  function Schedule(frames: seq<Frame>, rounds: nat): seq<Frame> {
    Repeat(frames, rounds)
  }

  /** The events of `rounds` turns of the player loop. */
  function Play(frames: seq<Frame>, fps: u32, minSpace: u32, rounds: nat): seq<Event>
    requires fps >= 1 && AllFit(frames, minSpace)
  {
    RepeatMembers(frames, rounds);
    DrawAll(Schedule(frames, rounds), FrameBudget(fps), minSpace)
  }

  /** Call number `k` draws frame `k mod |frames|`: frames in index order,
      starting over after the last one. */
  lemma ScheduleOrder(frames: seq<Frame>, rounds: nat)
    requires |frames| > 0
    ensures |Schedule(frames, rounds)| == rounds * |frames|
    ensures forall k :: 0 <= k < |Schedule(frames, rounds)| ==> Schedule(frames, rounds)[k] == frames[k % |frames|]
  {
    forall k | 0 <= k < |Schedule(frames, rounds)|
      ensures Schedule(frames, rounds)[k] == frames[k % |frames|]
    {
      RepeatIndex(frames, rounds, k);
    }
  }

  /** Drawing a sequence of frames returns all lines to idle and never
      lights two LEDs at once. */
  lemma {:induction false} DrawAllLines(frames: seq<Frame>, budget: u32, minSpace: u32)
    requires AllFit(frames, minSpace)
    ensures Run(Idle, DrawAll(frames, budget, minSpace)) == Idle
    ensures AllSafe(Idle, DrawAll(frames, budget, minSpace))
  {
    if |frames| > 0 {
      var init, last := frames[..|frames| - 1], frames[|frames| - 1];
      assert forall f :: f in init ==> f in frames;
      DrawAllLines(init, budget, minSpace);
      var head, tail := DrawAll(init, budget, minSpace), DrawFrame(last, budget, minSpace);
      DrawFrameLines(last, budget, minSpace);
      RunAppend(Idle, head, tail);
      AllSafeAppend(Idle, head, tail);
    }
  }

  /** Drawing a sequence of frames never waits longer than the frames'
      combined budget. */
  lemma {:induction false} DrawAllTime(frames: seq<Frame>, budget: u32, minSpace: u32)
    requires AllFit(frames, minSpace)
    ensures TotalUs(DrawAll(frames, budget, minSpace)) <= |frames| * budget
  {
    if |frames| > 0 {
      var init, last := frames[..|frames| - 1], frames[|frames| - 1];
      assert forall f :: f in init ==> f in frames;
      DrawAllTime(init, budget, minSpace);
      var head, tail := DrawAll(init, budget, minSpace), DrawFrame(last, budget, minSpace);
      DrawFrameWithinBudget(last, budget, minSpace);
      WithinBudgets(head, tail, |init|, budget);
    }
  }

  /** Appending a trace that keeps within one budget to one that keeps within
      `k` budgets keeps within `k + 1`. */
  lemma WithinBudgets(head: seq<Event>, tail: seq<Event>, k: nat, budget: nat)
    requires TotalUs(head) <= k * budget && TotalUs(tail) <= budget
    ensures TotalUs(head + tail) <= (k + 1) * budget
  {
    TotalUsAppend(head, tail);
    MulSucc(budget, k);
    assert (k + 1) * budget == budget * (k + 1);
    assert k * budget == budget * k;
  }

  /** Any number of rounds of the player keeps the multiplexing discipline and
      spends at most `rounds * |frames|` frame budgets. */
  lemma PlayLines(frames: seq<Frame>, fps: u32, minSpace: u32, rounds: nat)
    requires fps >= 1 && AllFit(frames, minSpace)
    ensures Run(Idle, Play(frames, fps, minSpace, rounds)) == Idle
    ensures AllSafe(Idle, Play(frames, fps, minSpace, rounds))
    ensures TotalUs(Play(frames, fps, minSpace, rounds)) <= rounds * |frames| * FrameBudget(fps)
  {
    RepeatMembers(frames, rounds);
    DrawAllLines(Schedule(frames, rounds), FrameBudget(fps), minSpace);
    DrawAllTime(Schedule(frames, rounds), FrameBudget(fps), minSpace);
  }

  /** At 10 frames per second each frame gets 100 ms, and at the pulse width
      of 50 us no frame can overflow `lap`. */
  lemma MainBudget()
    ensures FrameBudget(Fps) == 100_000
    ensures forall f: Frame :: LapFits(f, MinSpace)
  {
    forall f: Frame
      ensures LapFits(f, MinSpace)
    {
      assert LitCount(f) <= 16;
    }
  }

  // ---------------------------------------------------------------------------
  // The `pat_xor` animation: two checkerboards.

  const XorOne: Frame := [
    [false, true, false, true],
    [true, false, true, false],
    [false, true, false, true],
    [true, false, true, false]
  ]

  const XorTwo: Frame := [
    [true, false, true, false],
    [false, true, false, true],
    [true, false, true, false],
    [false, true, false, true]
  ]

  function PatXor(): seq<Frame> {
    [XorOne, XorTwo]
  }

  /** The two xor frames are cell-wise complements of each other. */
  lemma XorComplement()
    ensures |PatXor()| == 2
    ensures forall i, j :: 0 <= i < Size && 0 <= j < Size ==> PatXor()[0][i][j] == !PatXor()[1][i][j]
  {
  }
}
