/** Small shared vocabulary: an optional value and the rounding functions
    that Swift's `Double` code uses (`ceil`, `round`), stated on exact reals. */
module Base {

  datatype Option<+T> = None | Some(value: T)

  /** Largest integer not above `x`. */
  function Floor(x: real): (r: int)
    ensures r as real <= x < r as real + 1.0
  {
    x.Floor
  }

  /** Smallest integer not below `x` (Swift's `ceil`). */
  function Ceil(x: real): (r: int)
    ensures x <= r as real < x + 1.0
  {
    -Floor(-x)
  }

  /** Swift's `round`: to the nearest integer, halves away from zero. */
  function RoundHalfAway(x: real): (r: int)
    ensures x >= 0.0 ==> x - 0.5 < r as real <= x + 0.5
    ensures x < 0.0 ==> x - 0.5 <= r as real < x + 0.5
  {
    if x >= 0.0 then Floor(x + 0.5) else -Floor(-x + 0.5)
  }

  /** Rounding an integer gives that integer back. */
  lemma RoundOfInteger(k: int)
    ensures RoundHalfAway(k as real) == k
  {
  }

  /** Swift's `Array.prefix(n)`: at most the first `n` elements. */
  function Prefix<T>(s: seq<T>, n: int): (r: seq<T>)
    ensures |r| == if n < 0 then 0 else if n < |s| then n else |s|
    ensures r <= s
  {
    if n <= 0 then [] else if n < |s| then s[..n] else s
  }

  /** Swift's `Array.suffix(n)`: at most the last `n` elements. */
  function Suffix<T>(s: seq<T>, n: nat): (r: seq<T>)
    ensures |r| == if n < |s| then n else |s|
    ensures forall i :: 0 <= i < |r| ==> r[i] == s[|s| - |r| + i]
  {
    if n < |s| then s[|s| - n..] else s
  }

  /** The text of a measure label: a bar number, a bar and beat, or a bar,
      beat and sub-beat (`"3"`, `"3.2"`, `"3.2.4"`). */
  datatype MeasureLabel =
    | BarLabel(bar: int)
    | BeatLabel(bar: int, beat: int)
    | SubbeatLabel(bar: int, beat: int, subbeat: int)

  /** Multiplying by a positive number keeps a strict gap of at least one step. */
  lemma {:induction false} MulGap(b: int, x: int, y: int)
    requires b > 0 && x < y
    ensures b * x + b <= b * y
    decreases y - x
  {
    if y > x + 1 {
      MulGap(b, x, y - 1);
      assert b * (y - 1) + b == b * y;
    } else {
      assert b * (x + 1) == b * x + b;
    }
  }

  /** Quotient and remainder are determined by `n == b * q + r, 0 <= r < b`. */
  lemma DivModOf(n: int, b: int, q: int, r: int)
    requires b > 0 && 0 <= r < b && n == b * q + r
    ensures n / b == q && n % b == r
  {
    var q0, r0 := n / b, n % b;
    assert n == b * q0 + r0 && 0 <= r0 < b;
    if q0 > q {
      MulGap(b, q, q0);
    } else if q0 < q {
      MulGap(b, q0, q);
    }
  }

  /** Counting `n` up by one moves its remainder modulo `b` up by one, or
      wraps it to zero and moves the quotient up. */
  lemma DivModStep(n: nat, b: int)
    requires b > 0
    ensures n % b + 1 < b ==> (n + 1) / b == n / b && (n + 1) % b == n % b + 1
    ensures n % b + 1 == b ==> (n + 1) / b == n / b + 1 && (n + 1) % b == 0
  {
    var q, r := n / b, n % b;
    if r + 1 < b {
      DivModOf(n + 1, b, q, r + 1);
    } else {
      DivModOf(n + 1, b, q + 1, 0);
    }
  }

  /** A product of non-negative reals is non-negative. A helper for the
      proofs about bar widths: the solver does not find this nonlinear fact
      by itself inside a larger proof. */
  lemma NonNegativeProduct(x: real, y: real)
    requires x >= 0.0 && y >= 0.0
    ensures x * y >= 0.0
  {
  }

  /** Concatenation is associative (stated generically, so that proofs using
      it need not look inside the sequences). */
  lemma AppendAssoc<T>(a: seq<T>, b: seq<T>, c: seq<T>)
    ensures a + (b + c) == (a + b) + c
  {
  }
}
