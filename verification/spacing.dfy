/** The `spacing` step of the sweep demo in src/main.rs: after every sweep the
    per-row delay (milliseconds) moves one step down a fixed table,
    400, 250, 150, 75, 40, 20, 10, 9, 8, 5, 1, and any value not in the table
    is kept. The demo starts at 250. */
module Spacing {

  /** The source's `u16`. */
  type u16 = x: int | 0 <= x < 0x1_0000

  const InitialSpacing: u16 := 250

  /** The table as written in the `match`: value before and after a step. */
  const Steps: map<u16, u16> :=
    map[400 := 250, 250 := 150, 150 := 75, 75 := 40, 40 := 20,
        20 := 10, 10 := 9, 9 := 8, 8 := 5, 5 := 1]

  /** The values `spacing` takes from the initial 250 until it settles. */
  const Orbit: seq<u16> := [250, 150, 75, 40, 20, 10, 9, 8, 5, 1]

  /** One step of the table. It never increases the spacing and never takes a
      positive spacing to zero. */
  function NextSpacing(s: u16): (r: u16)
    ensures r <= s
    ensures s >= 1 ==> r >= 1
  {
    match s
    case 400 => 250
    case 250 => 150
    case 150 => 75
    case 75 => 40
    case 40 => 20
    case 20 => 10
    case 10 => 9
    case 9 => 8
    case 8 => 5
    case 5 => 1
    case _ => s
  }

  /** The spacing after `n` sweeps starting from `s`. */
  function Iterate(s: u16, n: nat): u16 {
    if n == 0 then s else Iterate(NextSpacing(s), n - 1)
  }

  /** The step agrees with the table: listed values map to their successor,
      every other value is left unchanged. */
  lemma StepMatchesTable(s: u16)
    ensures s in Steps ==> NextSpacing(s) == Steps[s] < s
    ensures s !in Steps ==> NextSpacing(s) == s
  {
  }

  lemma {:induction false} IterateSucc(s: u16, n: nat)
    ensures Iterate(s, n + 1) == NextSpacing(Iterate(s, n))
  {
    if n > 0 {
      IterateSucc(NextSpacing(s), n - 1);
    }
  }

  lemma {:induction false} IterateAdd(s: u16, a: nat, b: nat)
    ensures Iterate(s, a + b) == Iterate(Iterate(s, a), b)
  {
    if a > 0 {
      IterateAdd(NextSpacing(s), a - 1, b);
    }
  }

  /** Any number of steps never increases the spacing and keeps a positive
      spacing positive. */
  lemma {:induction false} IterateBounds(s: u16, n: nat)
    ensures Iterate(s, n) <= s
    ensures s >= 1 ==> Iterate(s, n) >= 1
  {
    if n > 0 {
      IterateBounds(NextSpacing(s), n - 1);
    }
  }

  /** A value the step leaves alone stays put forever; 1 is such a value. */
  lemma {:induction false} FixedPointStays(s: u16, n: nat)
    requires NextSpacing(s) == s
    ensures Iterate(s, n) == s
  {
    if n > 0 {
      FixedPointStays(s, n - 1);
    }
  }

  /** From 250 the spacing runs through the orbit one entry per sweep. */
  lemma {:induction false} FollowsOrbit(n: nat)
    requires n < |Orbit|
    ensures Iterate(InitialSpacing, n) == Orbit[n]
  {
    if n > 0 {
      FollowsOrbit(n - 1);
      IterateSucc(InitialSpacing, n - 1);
    }
  }

  /** Starting from 250, the spacing is 1 exactly from the 9th sweep on, and
      it is never 400. */
  lemma ReachesOne(n: nat)
    ensures Iterate(InitialSpacing, n) == 1 <==> n >= 9
    ensures Iterate(InitialSpacing, n) != 400
  {
    IterateBounds(InitialSpacing, n);
    if n < |Orbit| {
      FollowsOrbit(n);
    } else {
      FollowsOrbit(9);
      IterateAdd(InitialSpacing, 9, n - 9);
      FixedPointStays(1, n - 9);
    }
  }

  /** Whatever the start, ten steps reach a value the step no longer changes. */
  lemma Settles(s: u16)
    ensures NextSpacing(Iterate(s, 10)) == Iterate(s, 10)
  {
    StepMatchesTable(s);
    if s !in Steps {
      FixedPointStays(s, 10);
    } else {
      var k: nat;
      if s == 400 {
        k := 0;
        assert Iterate(s, 10) == Iterate(InitialSpacing, 9);
      } else {
        assert s in Orbit;
        k :| k < |Orbit| && Orbit[k] == s;
        FollowsOrbit(k);
        IterateAdd(InitialSpacing, k, 10);
        assert Iterate(s, 10) == Iterate(InitialSpacing, k + 10);
        FollowsOrbit(9);
        IterateAdd(InitialSpacing, 9, k + 1);
        FixedPointStays(1, k + 1);
      }
      FollowsOrbit(9);
    }
  }

  /** Sum of the spacings used by `n` sweeps starting from `s`. */
  function SpacingSum(s: u16, n: nat): nat {
    if n == 0 then 0 else s + SpacingSum(NextSpacing(s), n - 1)
  }

  lemma {:induction false} SpacingSumAdd(s: u16, a: nat, b: nat)
    ensures SpacingSum(s, a + b) == SpacingSum(s, a) + SpacingSum(Iterate(s, a), b)
  {
    if a > 0 {
      SpacingSumAdd(NextSpacing(s), a - 1, b);
    }
  }

  lemma {:induction false} SpacingSumFixed(s: u16, n: nat)
    requires NextSpacing(s) == s
    ensures SpacingSum(s, n) == n * s
  {
    if n > 0 {
      SpacingSumFixed(s, n - 1);
    }
  }

  /** The first nine spacings from 250 add up to 567 ms. */
  lemma OrbitSum()
    ensures SpacingSum(InitialSpacing, 9) == 567
  {
  }

  /** From 250, the first nine sweeps use 567 ms of spacing between them and
      every later sweep uses 1 ms. */
  lemma DemoSpacingSum(n: nat)
    requires n >= 9
    ensures SpacingSum(InitialSpacing, n) == 567 + (n - 9)
  {
    var rest := n - 9;
    SpacingSumAdd(InitialSpacing, 9, rest);
    OrbitSum();
    FollowsOrbit(9);
    assert Iterate(InitialSpacing, 9) == 1;
    SpacingSumFixed(1, rest);
    assert SpacingSum(1, rest) == rest;
  }
}
