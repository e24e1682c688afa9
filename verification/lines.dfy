/** The drive lines of the 4x4 matrix and the meaning of a trace of pin and
    delay events.

    Rows are active-low (open-drain): pulling a row low enables it. Columns are
    active-high (push-pull): driving a column high lights the LED where it meets
    an enabled row. A program's observable behaviour is the sequence of events
    it issues; `Run` replays such a sequence on the line state. */
module Lines {
  import opened Seqs

  datatype Event =
    | RowLow(row: nat)     // enable a row
    | RowHigh(row: nat)    // disable a row
    | ColHigh(col: nat)    // drive a column
    | ColLow(col: nat)     // release a column
    | DelayUs(us: nat)     // blocking wait, microseconds
    | DelayMs(ms: nat)     // blocking wait, milliseconds

  /** Which rows are pulled low and which columns are driven high. */
  datatype LineState = LineState(rowsLow: set<nat>, colsHigh: set<nat>)

  /** Every row released and every column low: the state set up before any
      drawing starts. */
  const Idle: LineState := LineState({}, {})

  function Apply(s: LineState, e: Event): LineState {
    match e
    case RowLow(i) => s.(rowsLow := s.rowsLow + {i})
    case RowHigh(i) => s.(rowsLow := s.rowsLow - {i})
    case ColHigh(j) => s.(colsHigh := s.colsHigh + {j})
    case ColLow(j) => s.(colsHigh := s.colsHigh - {j})
    case DelayUs(_) => s
    case DelayMs(_) => s
  }

  /** The line state after replaying `t` from `s`. */
  function Run(s: LineState, t: seq<Event>): LineState
    decreases |t|
  {
    if |t| == 0 then s else Run(Apply(s, t[0]), t[1..])
  }

  /** Multiplexing discipline: at most one row enabled and at most one column
      driven, so at most one LED is lit. */
  predicate Safe(s: LineState) {
    |s.rowsLow| <= 1 && |s.colsHigh| <= 1
  }

  /** `s` and every state reached while replaying `t` from it are `Safe`. */
  predicate AllSafe(s: LineState, t: seq<Event>)
    decreases |t|
  {
    Safe(s) && (|t| == 0 || AllSafe(Apply(s, t[0]), t[1..]))
  }

  /** LED (i, j) is lit: its row is enabled and its column is driven. */
  predicate Lit(s: LineState, i: nat, j: nat) {
    i in s.rowsLow && j in s.colsHigh
  }

  /** Time an event blocks for, in microseconds. */
  function WaitUs(e: Event): nat {
    match e
    case DelayUs(n) => n
    case DelayMs(n) => 1000 * n
    case _ => 0
  }

  /** Total blocking time of a trace, in microseconds. */
  function TotalUs(t: seq<Event>): nat {
    if |t| == 0 then 0 else WaitUs(t[0]) + TotalUs(t[1..])
  }

  /** Microseconds during which LED (i, j) is lit while `t` is replayed from `s`. */
  function LitUs(s: LineState, t: seq<Event>, i: nat, j: nat): nat
    decreases |t|
  {
    if |t| == 0 then 0
    else (if Lit(s, i, j) then WaitUs(t[0]) else 0) + LitUs(Apply(s, t[0]), t[1..], i, j)
  }

  /** Number of times LED (i, j) goes from dark to lit while `t` is replayed from `s`. */
  function Flashes(s: LineState, t: seq<Event>, i: nat, j: nat): nat
    decreases |t|
  {
    if |t| == 0 then 0
    else (if !Lit(s, i, j) && Lit(Apply(s, t[0]), i, j) then 1 else 0) + Flashes(Apply(s, t[0]), t[1..], i, j)
  }

  predicate IsRowEvent(e: Event) {
    e.RowLow? || e.RowHigh?
  }

  predicate IsColEvent(e: Event) {
    e.ColHigh? || e.ColLow?
  }

  predicate IsColHigh(e: Event) {
    e.ColHigh?
  }

  predicate IsDelay(e: Event) {
    e.DelayUs? || e.DelayMs?
  }

  /** Row events of one complete scan over rows 0 .. n-1, each enabled then
      released before the next: RowLow(0), RowHigh(0), RowLow(1), ... */
  function RowCycle(n: nat): (r: seq<Event>)
    ensures |r| == 2 * n
  {
    seq(2 * n, k requires 0 <= k => if k % 2 == 0 then RowLow(k / 2) else RowHigh(k / 2))
  }

  /** Column events of one complete sweep over columns 0 .. n-1, each driven
      then released before the next: ColHigh(0), ColLow(0), ColHigh(1), ... */
  function ColCycle(n: nat): (r: seq<Event>)
    ensures |r| == 2 * n
  {
    seq(2 * n, k requires 0 <= k => if k % 2 == 0 then ColHigh(k / 2) else ColLow(k / 2))
  }

  // ---------------------------------------------------------------------------
  // Replaying a concatenation is replaying its parts one after the other.

  lemma {:induction false} RunAppend(s: LineState, a: seq<Event>, b: seq<Event>)
    ensures Run(s, a + b) == Run(Run(s, a), b)
    decreases |a|
  {
    if |a| == 0 {
      assert a + b == b;
    } else {
      assert (a + b)[0] == a[0];
      assert (a + b)[1..] == a[1..] + b;
      RunAppend(Apply(s, a[0]), a[1..], b);
    }
  }

  lemma {:induction false} AllSafeAppend(s: LineState, a: seq<Event>, b: seq<Event>)
    ensures AllSafe(s, a + b) <==> AllSafe(s, a) && AllSafe(Run(s, a), b)
    decreases |a|
  {
    if |a| == 0 {
      assert a + b == b;
    } else {
      assert (a + b)[0] == a[0];
      assert (a + b)[1..] == a[1..] + b;
      AllSafeAppend(Apply(s, a[0]), a[1..], b);
    }
  }

  lemma {:induction false} TotalUsAppend(a: seq<Event>, b: seq<Event>)
    ensures TotalUs(a + b) == TotalUs(a) + TotalUs(b)
    decreases |a|
  {
    if |a| == 0 {
      assert a + b == b;
    } else {
      assert (a + b)[0] == a[0];
      assert (a + b)[1..] == a[1..] + b;
      TotalUsAppend(a[1..], b);
    }
  }

  lemma {:induction false} LitUsAppend(s: LineState, a: seq<Event>, b: seq<Event>, i: nat, j: nat)
    ensures LitUs(s, a + b, i, j) == LitUs(s, a, i, j) + LitUs(Run(s, a), b, i, j)
    decreases |a|
  {
    if |a| == 0 {
      assert a + b == b;
    } else {
      assert (a + b)[0] == a[0];
      assert (a + b)[1..] == a[1..] + b;
      LitUsAppend(Apply(s, a[0]), a[1..], b, i, j);
    }
  }

  lemma {:induction false} FlashesAppend(s: LineState, a: seq<Event>, b: seq<Event>, i: nat, j: nat)
    ensures Flashes(s, a + b, i, j) == Flashes(s, a, i, j) + Flashes(Run(s, a), b, i, j)
    decreases |a|
  {
    if |a| == 0 {
      assert a + b == b;
    } else {
      assert (a + b)[0] == a[0];
      assert (a + b)[1..] == a[1..] + b;
      FlashesAppend(Apply(s, a[0]), a[1..], b, i, j);
    }
  }
  /** Lit time and flashes after a block that returns to its starting state
      add up. */
  lemma CellsJoin(s: LineState, head: seq<Event>, last: seq<Event>, i: nat, j: nat)
    requires Run(s, head) == s
    ensures LitUs(s, head + last, i, j) == LitUs(s, head, i, j) + LitUs(s, last, i, j)
    ensures Flashes(s, head + last, i, j) == Flashes(s, head, i, j) + Flashes(s, last, i, j)
  {
    LitUsAppend(s, head, last, i, j);
    FlashesAppend(s, head, last, i, j);
  }

  /** The measures of a one-event trace. */
  lemma Single(s: LineState, e: Event)
    ensures Run(s, [e]) == Apply(s, e)
    ensures AllSafe(s, [e]) <==> Safe(s) && Safe(Apply(s, e))
    ensures TotalUs([e]) == WaitUs(e)
    ensures forall i: nat, j: nat :: LitUs(s, [e], i, j) == if Lit(s, i, j) then WaitUs(e) else 0
    ensures forall i: nat, j: nat :: Flashes(s, [e], i, j) == if !Lit(s, i, j) && Lit(Apply(s, e), i, j) then 1 else 0
  {
    assert [e][1..] == [];
  }

  // ---------------------------------------------------------------------------
  // A block that starts and ends with every line idle can be repeated.

  /** Repeating a block that returns to idle returns to idle. */
  lemma {:induction false} RepeatIdle(t: seq<Event>, n: nat)
    requires Run(Idle, t) == Idle
    ensures Run(Idle, Repeat(t, n)) == Idle
  {
    if n > 0 {
      RepeatIdle(t, n - 1);
      RunAppend(Idle, Repeat(t, n - 1), t);
    }
  }

  /** Repeating an idle-to-idle, safe block stays safe. */
  lemma {:induction false} RepeatSafe(t: seq<Event>, n: nat)
    requires Run(Idle, t) == Idle && AllSafe(Idle, t)
    ensures AllSafe(Idle, Repeat(t, n))
  {
    if n == 0 {
      assert Repeat(t, 0) == [];
    } else {
      RepeatSafe(t, n - 1);
      RepeatIdle(t, n - 1);
      AllSafeAppend(Idle, Repeat(t, n - 1), t);
    }
  }

  /** Repeating a block multiplies its waiting time. */
  lemma {:induction false} RepeatTime(t: seq<Event>, n: nat)
    ensures TotalUs(Repeat(t, n)) == n * TotalUs(t)
  {
    if n > 0 {
      RepeatTime(t, n - 1);
      TotalUsAppend(Repeat(t, n - 1), t);
      MulSucc(TotalUs(t), n - 1);
    }
  }

  /** Repeating an idle-to-idle block multiplies the time each LED is lit. */
  lemma {:induction false} RepeatLitUs(t: seq<Event>, n: nat, i: nat, j: nat)
    requires Run(Idle, t) == Idle
    ensures LitUs(Idle, Repeat(t, n), i, j) == n * LitUs(Idle, t, i, j)
  {
    if n > 0 {
      var head, x := Repeat(t, n - 1), LitUs(Idle, t, i, j);
      RepeatLitUs(t, n - 1, i, j);
      RepeatIdle(t, n - 1);
      LitUsAppend(Idle, head, t, i, j);
      assert LitUs(Idle, Repeat(t, n), i, j) == (n - 1) * x + x;
      MulSucc(x, n - 1);
    }
  }

  /** Repeating an idle-to-idle block multiplies the number of times each
      LED flashes. */
  lemma {:induction false} RepeatFlashes(t: seq<Event>, n: nat, i: nat, j: nat)
    requires Run(Idle, t) == Idle
    ensures Flashes(Idle, Repeat(t, n), i, j) == n * Flashes(Idle, t, i, j)
  {
    if n > 0 {
      var head, x := Repeat(t, n - 1), Flashes(Idle, t, i, j);
      RepeatFlashes(t, n - 1, i, j);
      RepeatIdle(t, n - 1);
      FlashesAppend(Idle, head, t, i, j);
      assert Flashes(Idle, Repeat(t, n), i, j) == (n - 1) * x + x;
      MulSucc(x, n - 1);
    }
  }

  /** Extending a row cycle by one row appends that row's enable/release pair. */
  lemma RowCycleStep(n: nat)
    ensures RowCycle(n + 1) == RowCycle(n) + [RowLow(n), RowHigh(n)]
  {
    var a, b := RowCycle(n + 1), RowCycle(n) + [RowLow(n), RowHigh(n)];
    assert |a| == |b|;
    forall k | 0 <= k < |a|
      ensures a[k] == b[k]
    {
      if k < 2 * n {
      } else if k == 2 * n {
        assert k / 2 == n;
      } else {
        assert k / 2 == n;
      }
    }
  }

  /** Extending a column cycle by one column appends that column's drive/release pair. */
  lemma ColCycleStep(n: nat)
    ensures ColCycle(n + 1) == ColCycle(n) + [ColHigh(n), ColLow(n)]
  {
    var a, b := ColCycle(n + 1), ColCycle(n) + [ColHigh(n), ColLow(n)];
    assert |a| == |b|;
    forall k | 0 <= k < |a|
      ensures a[k] == b[k]
    {
      if k < 2 * n {
      } else if k == 2 * n {
        assert k / 2 == n;
      } else {
        assert k / 2 == n;
      }
    }
  }
}
