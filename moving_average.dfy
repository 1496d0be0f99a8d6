/**
 * The fixed-capacity moving-average filter that smooths the raw thermocouple
 * ADC codes: a ring buffer of the last `windowLength` samples, a running
 * `uint32_t` sum and an integer-truncated mean.
 */
module MovingAverage {
  import opened Common

  /** Capacity of the history buffer; `windowLength` must not exceed it. */
  const MAX_WINDOW_LENGTH: nat := 16

  /** Exact sum of a window of samples. */
  function Sum(s: seq<int>): int
  {
    if s == [] then 0 else s[0] + Sum(s[1..])
  }

  /** The value the filter reports for a window: the wrapped running sum divided by the length. */
  function Average(w: seq<U32>): (r: U32)
    requires |w| > 0
    ensures r * |w| <= Wrap32(Sum(w)) < (r + 1) * |w|
  {
    DivAtMost(Wrap32(Sum(w)), |w|);
    Wrap32(Sum(w)) / |w|
  }

  /** The pointer after one `moving_avg_compute`: one slot on, back to 0 past the last slot. */
  function Advance(p: nat, n: nat): (r: nat)
    requires p < n
    ensures r < n
    ensures r == (p + 1) % n
  {
    if p < n - 1 then
      DivModUnique(p + 1, n, 0, p + 1);
      p + 1
    else
      DivModUnique(p + 1, n, 1, 0);
      0
  }

  /** How many calls of `moving_avg_compute` starting at slot `p` it takes to reach slot `j`. */
  function Dist(p: nat, j: nat, n: nat): (r: nat)
    requires p < n && j < n
    ensures r < n
    ensures (p + r) % n == j
  {
    if j >= p then
      DivModUnique(j, n, 0, j);
      j - p
    else
      DivModUnique(j + n, n, 1, j);
      j - p + n
  }

  /** The window after `k` consecutive computes of the same sample `v`, starting at pointer `p`. */
  function Feed(w: seq<U32>, p: nat, v: U32, k: nat): (r: seq<U32>)
    requires p < |w|
    ensures |r| == |w|
    decreases k
  {
    if k == 0 then w else Feed(w[p := v], Advance(p, |w|), v, k - 1)
  }

  /** Replacing one sample changes the sum by the difference. */
  lemma {:induction false} SumUpdate(s: seq<int>, i: nat, x: int)
    requires i < |s|
    ensures Sum(s[i := x]) == Sum(s) - s[i] + x
  {
    if i == 0 {
      assert s[i := x][1..] == s[1..];
    } else {
      assert s[i := x][1..] == s[1..][i - 1 := x];
      SumUpdate(s[1..], i - 1, x);
    }
  }

  /** A window filled with `v` sums to `n * v`. */
  lemma {:induction false} SumConstant(n: nat, v: int)
    ensures Sum(seq(n, _ => v)) == n * v
  {
    if n > 0 {
      assert seq(n, _ => v)[1..] == seq(n - 1, _ => v);
      SumConstant(n - 1, v);
    }
  }

  /** Wrapping an intermediate result does not change the wrapped final result. */
  lemma WrapThenAdd(a: int, b: int)
    ensures Wrap32(Wrap32(a) + b) == Wrap32(a + b)
  {
    var q := a / U32_MODULUS;
    assert Wrap32(a) + b == (a + b) - q * U32_MODULUS;
  }

  /** The running-sum update of `moving_avg_compute` keeps the sum equal to the wrapped window sum. */
  lemma ComputeKeepsSum(w: seq<U32>, p: nat, raw: U32, s: U32)
    requires p < |w| && s == Wrap32(Sum(w))
    ensures Wrap32(Wrap32(s as int + raw as int) as int - w[p] as int) == Wrap32(Sum(w[p := raw]))
  {
    WrapThenAdd(Sum(w), raw);
    WrapThenAdd(Sum(w) + raw, -(w[p] as int));
    SumUpdate(w, p, raw);
  }

  /**
   * After `k` computes of `v` from pointer `p`, exactly the `k` slots from `p`
   * onwards (cyclically) hold `v`; every other slot is as it was.
   */
  lemma {:induction false} FeedAt(w: seq<U32>, p: nat, v: U32, k: nat, j: nat)
    requires p < |w| && k <= |w| && j < |w|
    ensures Feed(w, p, v, k)[j] == if Dist(p, j, |w|) < k then v else w[j]
    decreases k
  {
    if k > 0 {
      var p' := Advance(p, |w|);
      FeedAt(w[p := v], p', v, k - 1, j);
      if j != p {
        assert Dist(p, j, |w|) == Dist(p', j, |w|) + 1;
      }
    }
  }

  /** `windowLength` computes of `v`, from any pointer, leave every slot equal to `v`. */
  lemma FeedFillsWindow(w: seq<U32>, p: nat, v: U32)
    requires p < |w|
    ensures Feed(w, p, v, |w|) == seq(|w|, _ => v)
  {
    var r := Feed(w, p, v, |w|);
    forall j | 0 <= j < |w|
      ensures r[j] == v
    {
      FeedAt(w, p, v, |w|, j);
    }
  }

  /** A window holding only `v` averages to `v`, provided `v * windowLength` fits in 32 bits. */
  lemma AverageOfConstant(n: nat, v: U32)
    requires n > 0 && n * v < U32_MODULUS
    ensures Average(seq(n, _ => v)) == v
  {
    SumConstant(n, v);
    MulDiv(n, v);
  }

  /**
   * `windowLength` consecutive computes of the same sample `v`, whatever the
   * window held before, make the filter report exactly `v` (when `v *
   * windowLength` does not overflow the `uint32_t` sum).
   */
  lemma ConvergesAfterWindow(w: seq<U32>, p: nat, v: U32)
    requires p < |w| && |w| * v < U32_MODULUS
    ensures Average(Feed(w, p, v, |w|)) == v
  {
    FeedFillsWindow(w, p, v);
    AverageOfConstant(|w|, v);
  }

  /** After `moving_avg_set_value(v)` the next `moving_avg_compute(v)` reports `v` (barring overflow). */
  lemma SetValueThenCompute(n: nat, v: U32)
    requires 0 < n && n * v < U32_MODULUS
    ensures Average(seq(n, _ => v)[0 := v]) == v
  {
    assert seq(n, _ => v)[0 := v] == seq(n, _ => v);
    AverageOfConstant(n, v);
  }

  /** The filter context `moving_avg_filter_ctx`. */
  class Filter {
    var windowLength: nat
    var windowPointer: nat
    const history: array<U32>
    var sum: U32

    /** The running sum is the wrapped sum of the window and the pointer stays inside it. */
    ghost predicate Valid()
      reads this, history
    {
      && history.Length == MAX_WINDOW_LENGTH
      && 1 <= windowLength <= MAX_WINDOW_LENGTH
      && windowPointer < windowLength
      && sum == Wrap32(Sum(history[..windowLength]))
    }

    /** The samples currently in the window. */
    ghost function Window(): seq<U32>
      reads this, history
      requires Valid()
    {
      history[..windowLength]
    }

    /** The zero-initialised static storage of a context (not yet `Valid`). */
    constructor ()
      ensures fresh(history) && history.Length == MAX_WINDOW_LENGTH
      ensures history[..] == seq(MAX_WINDOW_LENGTH, _ => 0)
      ensures windowLength == 0 && windowPointer == 0 && sum == 0
    {
      windowLength, windowPointer, sum := 0, 0, 0;
      history := new U32[MAX_WINDOW_LENGTH](_ => 0);
    }

    /** `moving_avg_init`: zero the first `len` slots, the sum and the pointer. */
    method Init(len: U32)
      requires history.Length == MAX_WINDOW_LENGTH
      requires 1 <= len <= MAX_WINDOW_LENGTH
      modifies this, history
      ensures Valid()
      ensures windowLength == len && windowPointer == 0 && sum == 0
      ensures Window() == seq(len, _ => 0)
      ensures history[len..] == old(history[len..])
    {
      windowLength := len;
      windowPointer := 0;
      sum := 0;
      var i := 0;
      while i < len
        invariant 0 <= i <= len
        modifies history
        invariant forall k :: 0 <= k < i ==> history[k] == 0
        invariant history[len..] == old(history[len..])
      {
        history[i] := 0;
        i := i + 1;
      }
      assert history[..len] == seq(len, _ => 0);
      SumConstant(len, 0);
    }

    /**
     * `moving_avg_compute`: store `raw` at the pointer, move the pointer on and
     * report the average of the new window.
     */
    method Compute(raw: U32) returns (avg: U32)
      requires Valid()
      modifies this`sum, this`windowPointer, history
      ensures Valid()
      ensures windowLength == old(windowLength)
      ensures history[..] == old(history[..])[old(windowPointer) := raw]
      ensures Window() == old(Window())[old(windowPointer) := raw]
      ensures windowPointer == Advance(old(windowPointer), windowLength)
      ensures avg == Average(Window())
    {
      ghost var before := history[..windowLength];
      var p := windowPointer;
      ComputeKeepsSum(before, p, raw, sum);
      sum := Wrap32(sum as int + raw as int);
      sum := Wrap32(sum as int - history[p] as int);
      history[p] := raw;
      assert history[..windowLength] == before[p := raw];
      assert sum == Wrap32(Sum(history[..windowLength]));
      if windowPointer < windowLength - 1 {
        windowPointer := windowPointer + 1;
      } else {
        windowPointer := 0;
      }
      DivAtMost(sum, windowLength);
      avg := sum / windowLength;
    }

    /** `moving_avg_set_value`: fill the window with `raw`, sum `raw * windowLength`, pointer 0. */
    method SetValue(raw: U32)
      requires Valid()
      modifies this, history
      ensures Valid()
      ensures windowLength == old(windowLength) && windowPointer == 0
      ensures sum == Wrap32(raw * windowLength)
      ensures Window() == seq(windowLength, _ => raw)
      ensures history[windowLength..] == old(history[windowLength..])
    {
      var len := windowLength;
      sum := Wrap32(raw * len);
      windowPointer := 0;
      var i := 0;
      while i < len
        invariant 0 <= i <= len
        modifies history
        invariant forall k :: 0 <= k < i ==> history[k] == raw
        invariant history[len..] == old(history[len..])
      {
        history[i] := raw;
        i := i + 1;
      }
      assert history[..len] == seq(len, _ => raw);
      SumConstant(len, raw);
      assert raw * len == len * raw;
    }
  }
}
