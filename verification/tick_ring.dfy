/** The encoder tick sampler both wheel variants share: a five-slot ring of
    inter-tick intervals in microseconds, written by the encoder interrupt
    (`tick`) and averaged by the main loop (`avgTickTime`). The read is an
    atomic snapshot: interrupt masking is not modelled. */
module TickRing {
  import opened Common

  /** `TBSZ`, the tick buffer size. */
  const TBSZ: nat := 5

  /** `_tickBuf`, `_tbix` and `_lastTickTime` of a wheel. */
  datatype Sampler = Sampler(buf: seq<U32>, tbix: int, lastTickTime: U32)

  /** The buffer has its fixed size and `tbix` names the slot the next
      interval goes to. */
  predicate Valid(t: Sampler) {
    |t.buf| == TBSZ && 0 <= t.tbix < TBSZ
  }

  /** The state the wheel constructors leave: every slot zero, index 0,
      no tick seen yet. */
  function Initial(): (t: Sampler)
    ensures Valid(t)
    ensures forall i :: 0 <= i < TBSZ ==> t.buf[i] == 0
    ensures t.tbix == 0 && t.lastTickTime == 0
  {
    Sampler([0, 0, 0, 0, 0], 0, 0)
  }

  /** One encoder interrupt at time `now` (the value `micros()` returned). */
  function Tick(t: Sampler, now: U32): (r: Sampler)
    requires Valid(t)
    ensures Valid(r)
    ensures r.buf[t.tbix] == Wrap32(now - t.lastTickTime)
    ensures forall i :: 0 <= i < TBSZ && i != t.tbix ==> r.buf[i] == t.buf[i]
    ensures r.lastTickTime == now
    ensures r.tbix == (t.tbix + 1) % TBSZ
  {
    var ix := t.tbix + 1;
    Sampler(t.buf[t.tbix := Wrap32(now - t.lastTickTime)], if ix >= TBSZ then 0 else ix, now)
  }

  /** Applies `Tick` for every timestamp of `times`, first to last. */
  function TickAll(t: Sampler, times: seq<U32>): (r: Sampler)
    requires Valid(t)
    ensures Valid(r)
    decreases |times|
  {
    if |times| == 0 then t else TickAll(Tick(t, times[0]), times[1..])
  }

  function Sum(s: seq<int>): int
    decreases |s|
  {
    if |s| == 0 then 0 else Sum(s[..|s| - 1]) + s[|s| - 1]
  }

  /** The slots from oldest to newest interval: the slot `tbix` holds the
      oldest one, because it is the next to be overwritten. */
  function Window(t: Sampler): (w: seq<U32>)
    requires Valid(t)
    ensures |w| == TBSZ
  {
    t.buf[t.tbix..] + t.buf[..t.tbix]
  }

  lemma {:induction false} WindowAt(t: Sampler, k: int)
    requires Valid(t) && 0 <= k < TBSZ
    ensures Window(t)[k] == t.buf[if t.tbix + k < TBSZ then t.tbix + k else t.tbix + k - TBSZ]
  {
    if t.tbix + k < TBSZ {
      assert Window(t)[k] == t.buf[t.tbix..][k];
    } else {
      assert Window(t)[k] == t.buf[..t.tbix][k - (TBSZ - t.tbix)];
    }
  }

  /** The value `avgTickTime` returns: the 32-bit running total divided by
      `TBSZ`, cast to a 16-bit `unsigned int`. */
  function Average(t: Sampler): U16
    requires Valid(t)
  {
    Wrap16(Wrap32(Sum(t.buf)) / TBSZ)
  }

  /** `avgTickTime`: the summing loop of the firmware, accumulating in an
      `unsigned long`. */
  method AvgTickTime(t: Sampler) returns (avg: U16)
    requires Valid(t)
    ensures avg == Average(t)
    ensures Sum(t.buf) < TWO_32 ==> avg == Wrap16(Sum(t.buf) / TBSZ)
  {
    var total: U32 := 0;
    var i := 0;
    while i < TBSZ
      invariant 0 <= i <= TBSZ
      invariant total == Wrap32(Sum(t.buf[..i]))
    {
      SumAppend(t.buf[..i], t.buf[i]);
      assert t.buf[..i + 1] == t.buf[..i] + [t.buf[i]];
      WrapAdd(Sum(t.buf[..i]), t.buf[i]);
      total := Wrap32(total + t.buf[i]);
      i := i + 1;
    }
    assert t.buf[..TBSZ] == t.buf;
    SumNonNegative(t.buf);
    avg := Wrap16(total / TBSZ);
  }

  lemma {:induction false} SumAppend(s: seq<int>, x: int)
    ensures Sum(s + [x]) == Sum(s) + x
  {
    assert (s + [x])[..|s|] == s;
  }

  lemma {:induction false} WrapAdd(a: int, b: int)
    ensures Wrap32(Wrap32(a) + b) == Wrap32(a + b)
  {
  }

  lemma {:induction false} SumConcat(a: seq<int>, b: seq<int>)
    ensures Sum(a + b) == Sum(a) + Sum(b)
    decreases |b|
  {
    if |b| == 0 {
      assert a + b == a;
    } else {
      var b' := b[..|b| - 1];
      assert a + b == (a + b') + [b[|b| - 1]];
      SumAppend(a + b', b[|b| - 1]);
      SumConcat(a, b');
      assert b == b' + [b[|b| - 1]];
      SumAppend(b', b[|b| - 1]);
    }
  }

  lemma {:induction false} SumNonNegative(s: seq<U32>)
    ensures 0 <= Sum(s) <= |s| * (TWO_32 - 1)
    decreases |s|
  {
    if |s| > 0 {
      SumNonNegative(s[..|s| - 1]);
    }
  }

  /** A tick drops the oldest interval of the window and appends the new one:
      the ring behaves as a sliding window over the last `TBSZ` intervals. */
  lemma {:induction false} TickSlidesWindow(t: Sampler, now: U32)
    requires Valid(t)
    ensures Window(Tick(t, now)) == Window(t)[1..] + [Wrap32(now - t.lastTickTime)]
  {
    var r := Tick(t, now);
    var w := Window(t)[1..] + [Wrap32(now - t.lastTickTime)];
    assert |Window(r)| == |w|;
    assert r.tbix == if t.tbix + 1 < TBSZ then t.tbix + 1 else 0;
    forall k | 0 <= k < TBSZ
      ensures Window(r)[k] == w[k]
    {
      WindowAt(r, k);
      if k < TBSZ - 1 {
        WindowAt(t, k + 1);
      }
    }
  }

  /** The average is a function of the window only (slot order is irrelevant). */
  lemma {:induction false} WindowSum(t: Sampler)
    requires Valid(t)
    ensures Sum(Window(t)) == Sum(t.buf)
  {
    assert t.buf == t.buf[..t.tbix] + t.buf[t.tbix..];
    SumConcat(t.buf[..t.tbix], t.buf[t.tbix..]);
    SumConcat(t.buf[t.tbix..], t.buf[..t.tbix]);
  }

  /** Ticking at the times of `times` (at most `TBSZ` of them) pushes the
      intervals between consecutive timestamps, the first measured from the
      last tick before them, out of the far end of the window. */
  lemma {:induction false} TickAllWindow(t: Sampler, times: seq<U32>)
    requires Valid(t) && |times| <= TBSZ
    ensures Window(TickAll(t, times)) == Window(t)[|times|..] + Intervals(t.lastTickTime, times)
    ensures TickAll(t, times).lastTickTime == if |times| == 0 then t.lastTickTime else times[|times| - 1]
    decreases |times|
  {
    if |times| > 0 {
      var front := times[..|times| - 1];
      var last := times[|times| - 1];
      TickAllSnoc(t, front, last);
      TickAllWindow(t, front);
      var u := TickAll(t, front);
      TickSlidesWindow(u, last);
      IntervalsSnoc(t.lastTickTime, front, last);
      SlideStep(Window(t), |front|, |times|, Intervals(t.lastTickTime, front), Wrap32(last - u.lastTickTime));
      assert times == front + [last];
    }
  }

  /** Sliding a window that starts at `n` by one place. */
  lemma {:induction false} SlideStep(w: seq<U32>, n: nat, m: nat, d: seq<U32>, x: U32)
    requires n < |w| && m == n + 1
    ensures (w[n..] + d)[1..] + [x] == w[m..] + (d + [x])
  {
    assert (w[n..] + d)[1..] == w[m..] + d;
  }

  /** Once `TBSZ` ticks have happened, the average depends only on the last
      `TBSZ` intervals, whatever the history before them. */
  lemma {:induction false} AverageOfLastTicks(t: Sampler, times: seq<U32>)
    requires Valid(t) && |times| == TBSZ
    ensures Average(TickAll(t, times)) == Wrap16(Wrap32(Sum(Intervals(t.lastTickTime, times))) / TBSZ)
  {
    TickAllWindow(t, times);
    WindowSum(TickAll(t, times));
    assert Window(t)[TBSZ..] == [];
    assert Window(TickAll(t, times)) == Intervals(t.lastTickTime, times);
  }

  /** Steady state: five ticks `d` microseconds apart make the average
      exactly `d`. */
  lemma {:induction false} SteadyAverage(t: Sampler, d: U16)
    requires Valid(t) && t.lastTickTime + TBSZ * d < TWO_32
    ensures Average(TickAll(t, seq(TBSZ, i => t.lastTickTime + (i + 1) * d))) == d
  {
    var times: seq<U32> := seq(TBSZ, i => t.lastTickTime + (i + 1) * d);
    forall i | 0 <= i < TBSZ
      ensures times[i] == t.lastTickTime + (i + 1) * d
    {
      assert (i + 1) * d <= TBSZ * d;
    }
    EvenIntervals(t.lastTickTime, d, times);
    AverageOfLastTicks(t, times);
    SumConstant(Intervals(t.lastTickTime, times), d);
  }

  function Zeros(n: nat): (z: seq<U32>)
    ensures |z| == n
    ensures forall i :: 0 <= i < n ==> z[i] == 0
  {
    seq(n, _ => 0)
  }

  /** The intervals between consecutive elements of `[start] + times`. */
  function Intervals(start: U32, times: seq<U32>): (d: seq<U32>)
    ensures |d| == |times|
    decreases |times|
  {
    if |times| == 0 then [] else [Wrap32(times[0] - start)] + Intervals(times[0], times[1..])
  }

  lemma {:induction false} IntervalsSnoc(start: U32, times: seq<U32>, x: U32)
    ensures Intervals(start, times + [x])
         == Intervals(start, times) + [Wrap32(x - (if |times| == 0 then start else times[|times| - 1]))]
    decreases |times|
  {
    if |times| > 0 {
      assert (times + [x])[1..] == times[1..] + [x];
      IntervalsSnoc(times[0], times[1..], x);
    }
  }

  lemma {:induction false} TickAllSnoc(t: Sampler, times: seq<U32>, x: U32)
    requires Valid(t)
    ensures TickAll(t, times + [x]) == Tick(TickAll(t, times), x)
    decreases |times|
  {
    if |times| == 0 {
      assert times + [x] == [x];
    } else {
      assert (times + [x])[1..] == times[1..] + [x];
      TickAllSnoc(Tick(t, times[0]), times[1..], x);
    }
  }

  /** After `k < TBSZ` ticks spaced `d` microseconds apart, starting at time
      `d`, from the constructor state, the average is `k*d/5` (as a 16-bit
      value): the slots not yet written still count as zero intervals. */
  lemma {:induction false} AverageOfEvenTicks(k: nat, d: U32)
    requires k < TBSZ && k * d < TWO_32
    ensures Average(TickAll(Initial(), seq(k, i => (i + 1) * d))) == Wrap16((k * d) / TBSZ)
  {
    var times := seq(k, i => (i + 1) * d);
    forall i | 0 <= i < k
      ensures times[i] == (i + 1) * d
    {
      assert (i + 1) * d <= k * d;
    }
    EvenIntervals(0, d, times);
    TickAllWindow(Initial(), times);
    var t := TickAll(Initial(), times);
    WindowSum(t);
    assert Window(Initial())[k..] == Zeros(TBSZ - k);
    SumConcat(Zeros(TBSZ - k), Intervals(0, times));
    SumZeros(TBSZ - k);
    SumConstant(Intervals(0, times), d);
    assert Sum(t.buf) == k * d;
  }

  lemma {:induction false} EvenIntervals(start: U32, d: U32, times: seq<U32>)
    requires forall i :: 0 <= i < |times| ==> times[i] == start + (i + 1) * d
    ensures forall i :: 0 <= i < |times| ==> Intervals(start, times)[i] == d
    decreases |times|
  {
    if |times| > 0 {
      var rest := times[1..];
      assert forall i :: 0 <= i < |rest| ==> rest[i] == times[0] + (i + 1) * d by {
        forall i | 0 <= i < |rest|
          ensures rest[i] == times[0] + (i + 1) * d
        {
          assert rest[i] == times[i + 1] == start + (i + 2) * d;
        }
      }
      EvenIntervals(times[0], d, rest);
    }
  }

  lemma {:induction false} SumZeros(n: nat)
    ensures Sum(Zeros(n)) == 0
    decreases n
  {
    if n > 0 {
      assert Zeros(n)[..n - 1] == Zeros(n - 1);
      SumZeros(n - 1);
    }
  }

  lemma {:induction false} SumConstant(s: seq<int>, d: int)
    requires forall i :: 0 <= i < |s| ==> s[i] == d
    ensures Sum(s) == |s| * d
    decreases |s|
  {
    if |s| > 0 {
      SumConstant(s[..|s| - 1], d);
    }
  }
}
