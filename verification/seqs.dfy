/** Generic sequence helpers shared by the scanner, the player and the sweep demo. */
module Seqs {

  /** `n` back-to-back copies of `t`: what a counted `for` loop emits when every
      iteration emits `t`. Built by appending, in loop order. */
  function Repeat<T>(t: seq<T>, n: nat): (r: seq<T>)
    ensures |r| == n * |t|
  {
    if n == 0 then [] else Repeat(t, n - 1) + t
  }

  /** Element `k` of the repetition is element `k mod |t|` of the original: the
      list restarts at the front once it is used up. */
  lemma {:induction false} RepeatIndex<T>(t: seq<T>, n: nat, k: nat)
    requires |t| > 0 && k < n * |t|
    ensures Repeat(t, n)[k] == t[k % |t|]
  {
    var prefix := Repeat(t, n - 1);
    if k < |prefix| {
      RepeatIndex(t, n - 1, k);
    } else {
      ModOffset(n - 1, |t|, k - |prefix|);
    }
  }

  /** Euclidean remainder is unique: `q * m + r` leaves remainder `r`. */
  lemma ModOffset(q: nat, m: nat, r: nat)
    requires r < m
    ensures (q * m + r) % m == r
  {
    var x := q * m + r;
    var d, e := x / m, x % m;
    assert m * d + e == m * q + r;
    if d < q {
      assert m * (q - d) >= m by { MulAtLeast(m, q - d); }
    } else if d > q {
      assert m * (d - q) >= m by { MulAtLeast(m, d - q); }
    }
  }

  lemma MulAtLeast(m: nat, k: nat)
    requires k >= 1
    ensures m * k >= m
  {
  }

  lemma MulSucc(m: nat, k: nat)
    ensures m * (k + 1) == m * k + m
    ensures (k + 1) * m == k * m + m
  {
  }

  lemma MulAdd(m: nat, a: nat, b: nat)
    ensures m * (a + b) == m * a + m * b
  {
  }

  /** `a` copies followed by `b` copies are `a + b` copies. */
  lemma {:induction false} RepeatAdd<T>(t: seq<T>, a: nat, b: nat)
    ensures Repeat(t, a + b) == Repeat(t, a) + Repeat(t, b)
  {
    if b > 0 {
      RepeatAdd(t, a, b - 1);
    } else {
      assert Repeat(t, a) + [] == Repeat(t, a);
    }
  }

  /** A repetition holds nothing that the repeated sequence does not hold. */
  lemma {:induction false} RepeatMembers<T>(t: seq<T>, n: nat)
    ensures forall x :: x in Repeat(t, n) ==> x in t
  {
    if n > 0 {
      RepeatMembers(t, n - 1);
    }
  }

  /** Exactly the elements of `t` that satisfy `p`, in their original order. */
  function Keep<T>(t: seq<T>, p: T -> bool): (r: seq<T>)
    ensures |r| <= |t|
  {
    if |t| == 0 then []
    else (if p(t[0]) then [t[0]] else []) + Keep(t[1..], p)
  }

  lemma KeepSingle<T>(x: T, p: T -> bool)
    ensures Keep([x], p) == if p(x) then [x] else []
  {
    assert [x][1..] == [];
  }

  lemma {:induction false} KeepAppend<T>(a: seq<T>, b: seq<T>, p: T -> bool)
    ensures Keep(a + b, p) == Keep(a, p) + Keep(b, p)
    decreases |a|
  {
    if |a| == 0 {
      assert a + b == b;
    } else {
      var x: seq<T> := if p(a[0]) then [a[0]] else [];
      assert (a + b)[0] == a[0];
      assert (a + b)[1..] == a[1..] + b;
      KeepAppend(a[1..], b, p);
      assert Keep(a + b, p) == x + (Keep(a[1..], p) + Keep(b, p));
      assert Keep(a, p) == x + Keep(a[1..], p);
    }
  }

  /** Appending a block whose filtered part is known. */
  lemma KeepSnoc<T>(head: seq<T>, last: seq<T>, p: T -> bool, x: seq<T>)
    requires Keep(last, p) == x
    ensures Keep(head + last, p) == Keep(head, p) + x
  {
    KeepAppend(head, last, p);
  }

  /** Filtering a three-element sequence looks at each element in turn. */
  lemma KeepTriple<T>(x: T, y: T, z: T, p: T -> bool)
    ensures Keep([x, y, z], p)
              == (if p(x) then [x] else []) + (if p(y) then [y] else []) + (if p(z) then [z] else [])
  {
    assert [x, y, z] == [x] + [y] + [z];
    KeepSingle(x, p);
    KeepSingle(y, p);
    KeepSingle(z, p);
    KeepAppend([x], [y], p);
    KeepAppend([x] + [y], [z], p);
  }

  /** Filtering a repetition repeats the filtered sequence. */
  lemma {:induction false} KeepRepeat<T>(t: seq<T>, n: nat, p: T -> bool)
    ensures Keep(Repeat(t, n), p) == Repeat(Keep(t, p), n)
  {
    if n > 0 {
      KeepAppend(Repeat(t, n - 1), t, p);
      KeepRepeat(t, n - 1, p);
    }
  }
}
