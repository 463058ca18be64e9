/** Sleep advice from a moving average over the last ticks (throttle/throttle.go). */
module Throttling {
  import opened Options

  function Sum(s: seq<int>): int {
    if s == [] then 0 else s[0] + Sum(s[1..])
  }

  lemma {:induction false} SumAppend(a: seq<int>, b: seq<int>)
    ensures Sum(a + b) == Sum(a) + Sum(b)
    decreases |a|
  {
    if a == [] {
      assert a + b == b;
    } else {
      assert (a + b)[1..] == a[1..] + b;
      SumAppend(a[1..], b);
    }
  }

  lemma SumOne(x: int)
    ensures Sum([x]) == x
  {
    assert [x][1..] == [];
  }

  function Zeros(n: nat): (s: seq<int>)
    ensures |s| == n && Sum(s) == 0
  {
    if n == 0 then [] else [0] + Zeros(n - 1)
  }

  /** The totals of the last n ticks, zeros standing for ticks before the first. */
  function Window(ticks: seq<int>, n: nat): (w: seq<int>)
    ensures |w| == n
  {
    if |ticks| >= n then ticks[|ticks| - n..] else Zeros(n - |ticks|) + ticks
  }

  lemma WindowMoves(ticks: seq<int>, n: nat, total: int)
    requires n > 0
    ensures Window(ticks + [total], n) == Window(ticks, n)[1..] + [total]
    ensures Sum(Window(ticks + [total], n)) == Sum(Window(ticks, n)) - Window(ticks, n)[0] + total
  {
    var w := Window(ticks, n);
    if |ticks| < n {
      assert Zeros(n - |ticks|)[1..] == Zeros(n - |ticks| - 1);
      assert w[1..] == Zeros(n - |ticks| - 1) + ticks;
      assert w[1..] + [total] == Zeros(n - |ticks| - 1) + (ticks + [total]);
    }
    SumAppend(w[1..], [total]);
    SumOne(total);
  }

  /** Go's division of integers, which rounds towards zero. */
  function Truncated(a: int, b: int): (q: int)
    requires b != 0
    ensures a >= 0 && b > 0 ==> q == a / b
  {
    var magnitude := (if a >= 0 then a else -a) / (if b >= 0 then b else -b);
    if (a >= 0) == (b >= 0) then magnitude else -magnitude
  }

  /** The advice of one tick for an average amount per interval, none when the division by the average panics. */
  function Sleep(interval: nat, target: int, average: int): (s: Option<int>)
    ensures s.None? <==> target < 0 && average == 0
  {
    if average <= target then Some(0)
    else if average == 0 then None
    else Some(interval - Truncated(interval * target, average))
  }

  /** Working only during interval - s would keep the amount of an interval within the target. */
  predicate Suffices(interval: nat, target: nat, average: int, s: int) {
    average * (interval - s) <= interval * target
  }

  lemma DivisionBounds(a: nat, b: nat)
    requires b > 0
    ensures a / b * b <= a < a / b * b + b
  {
  }

  lemma MulMono(a: int, x: int, y: int)
    requires a >= 0 && x <= y
    ensures a * x <= a * y
  {
  }

  lemma QuotientAtMost(a: nat, b: nat, c: nat)
    requires b > 0 && a <= b * c
    ensures a / b <= c
  {
    DivisionBounds(a, b);
    if a / b >= c + 1 {
      MulMono(b, c + 1, a / b);
    }
  }

  /** No sleep that leaves more than the quotient of an interval suffices. */
  lemma ShorterDoesNotSuffice(interval: nat, target: nat, average: nat, s: nat)
    requires average > 0 && s < interval - interval * target / average
    ensures !Suffices(interval, target, average, s)
  {
    var x, q := interval * target, interval * target / average;
    DivisionBounds(x, average);
    MulMono(average, q + 1, interval - s);
    assert average * (q + 1) == q * average + average;
  }

  lemma UnthrottledSuffices(interval: nat, target: nat, average: int)
    requires average <= target
    ensures Suffices(interval, target, average, 0)
  {
    MulMono(interval, average, target);
  }

  lemma LeavesQuotient(interval: nat, target: nat, average: nat)
    requires average > 0
    ensures Suffices(interval, target, average, interval - interval * target / average)
  {
    var x := interval * target;
    DivisionBounds(x, average);
    assert interval - (interval - x / average) == x / average;
    assert average * (x / average) == x / average * average;
  }

  /** The advice is the shortest sleep that suffices, and never more than an interval. */
  lemma SleepIsShortest(interval: nat, target: nat, average: int)
    ensures Sleep(interval, target, average).Some?
    ensures var s := Sleep(interval, target, average).value;
      0 <= s <= interval && Suffices(interval, target, average, s)
    ensures forall s: nat :: s < Sleep(interval, target, average).value ==> !Suffices(interval, target, average, s)
  {
    hide Truncated;
    if average <= target {
      UnthrottledSuffices(interval, target, average);
    } else {
      MulMono(interval, 0, target);
      MulMono(interval, target, average);
      QuotientAtMost(interval * target, average, interval);
      hide Suffices;
      LeavesQuotient(interval, target, average);
      forall s: nat | s < interval - interval * target / average
        ensures !Suffices(interval, target, average, s)
      {
        ShorterDoesNotSuffice(interval, target, average, s);
      }
    }
  }

  lemma NoQuotientExactlyWhen(a: nat, b: nat)
    requires b > 0
    ensures a / b == 0 <==> a < b
  {
    DivisionBounds(a, b);
    if a / b >= 1 {
      MulMono(b, 1, a / b);
    }
  }

  /** With a negative target the advice is never shorter than an interval. */
  lemma NegativeTargetTakesAnInterval(interval: nat, target: int, average: nat)
    requires target < 0 && average > 0
    ensures Sleep(interval, target, average).Some?
    ensures Sleep(interval, target, average).value >= interval
    ensures Sleep(interval, target, average).value == interval <==> interval * (-target) < average
  {
    assert interval * target == -(interval * (-target));
    MulMono(interval, 0, -target);
    NoQuotientExactlyWhen(interval * (-target), average);
    DivisionBounds(interval * (-target), average);
  }

  class Throttle {
    const checkInterval: nat
    const numSamples: nat
    const target: int
    var current: int
    var samples: array<int>
    var sumSamples: int
    var samplesHand: nat

    /** The totals of all ticks so far, and everything that was ever added. */
    ghost var ticks: seq<int>
    ghost var added: int

    /** Read from the hand on, the ring holds the window with the oldest tick first. */
    ghost predicate Valid()
      reads this, samples
    {
      && samples.Length == numSamples && samplesHand < numSamples
      && samples[samplesHand..] + samples[..samplesHand] == Window(ticks, numSamples)
      && sumSamples == Sum(Window(ticks, numSamples))
      && added == Sum(ticks) + current
    }

    constructor (target: int, checkInterval: nat, numSamples: nat)
      requires numSamples > 0
      ensures Valid() && fresh(samples) && ticks == [] && added == 0 && current == 0
      ensures this.target == target && this.checkInterval == checkInterval && this.numSamples == numSamples
    {
      this.target, this.checkInterval, this.numSamples := target, checkInterval, numSamples;
      current, sumSamples, samplesHand := 0, 0, 0;
      samples := new int[numSamples](_ => 0);
      ticks, added := [], 0;
      new;
      AllZero(samples[..]);
      assert samples[0..] + samples[..0] == samples[..];
      assert Zeros(numSamples) + [] == Zeros(numSamples);
    }

    /** The ring moves by one: the oldest total makes room for the current one. */
    method Tick() returns (s: Option<int>)
      requires Valid()
      modifies this, samples
      ensures Valid() && samples == old(samples)
      ensures ticks == old(ticks) + [old(current)] && current == 0 && added == old(added)
      ensures s == Sleep(checkInterval, target, Truncated(Sum(Window(ticks, numSamples)), numSamples))
    {
      hide Truncated, Window, Sum;
      ghost var before, total := samples[..], current;
      WindowMoves(ticks, numSamples, current);
      SumAppend(ticks, [current]);
      SumOne(current);
      sumSamples := sumSamples - samples[samplesHand];
      sumSamples := sumSamples + current;
      samples[samplesHand] := current;
      ticks := ticks + [current];
      current := 0;
      samplesHand := samplesHand + 1;
      RingMoves(before, samplesHand - 1, total);
      assert samples[..] == before[samplesHand - 1 := total];
      if samplesHand >= numSamples {
        assert samples[samplesHand..] == [];
        samplesHand := 0;
        assert samples[0..] + samples[..0] == samples[..];
      }
      var avg := Truncated(sumSamples, numSamples);
      if avg <= target {
        return Some(0);
      }
      if avg == 0 {
        return None;
      }
      return Some(checkInterval - Truncated(checkInterval * target, avg));
    }

    /** `fired` says that the ticker had a tick for this call; nothing is returned when the call panics. */
    method Advice(add: int, fired: bool) returns (s: Option<int>)
      requires Valid()
      modifies this, samples
      ensures Valid() && samples == old(samples) && added == old(added) + add
      ensures target == 0 || !fired ==> s == Some(0) && ticks == old(ticks) && current == old(current) + add
      ensures target != 0 && fired ==>
        && ticks == old(ticks) + [old(current) + add] && current == 0
        && s == Sleep(checkInterval, target, Truncated(Sum(Window(ticks, numSamples)), numSamples))
    {
      hide Sleep, Truncated, Window, Sum;
      current := current + add;
      added := added + add;
      s := Some(0);
      if target == 0 {
        return;
      }
      if fired {
        s := Tick();
      }
    }
  }

  lemma {:induction false} AllZero(s: seq<int>)
    requires forall i :: 0 <= i < |s| ==> s[i] == 0
    ensures s == Zeros(|s|)
  {
    if s != [] {
      AllZero(s[1..]);
      assert s == [0] + s[1..];
    }
  }

  /** Writing at the hand and moving it drops the first element of what is read from it and appends the new one. */
  lemma RingMoves(ring: seq<int>, hand: nat, total: int)
    requires hand < |ring|
    ensures var after := ring[hand := total];
      after[hand + 1..] + after[..hand + 1] == (ring[hand..] + ring[..hand])[1..] + [total]
  {
  }
}
