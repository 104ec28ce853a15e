// Limiting a stream to a number of bytes per second: the accounting of the
// monitor by samples, and the bound on the rate over a whole transfer.

module FlowControl {
  import opened Arith
  import opened Bytes

  // All times are in nanoseconds.
  const MILLISECOND := 1_000_000
  const SECOND := 1_000_000_000
  const CLOCK_RATE := 20 * MILLISECOND
  const MIN_WAIT := 5 * MILLISECOND

  // Integer division as the program has it: the quotient is cut off towards zero.
  function Quotient(a: int, b: int): int
    requires b > 0
  {
    if a >= 0 then a / b else -(-a / b)
  }

  function ClockRound(d: int): int {
    Quotient(d + CLOCK_RATE / 2, CLOCK_RATE) * CLOCK_RATE
  }

  lemma ClockRoundIsNearest(d: int)
    ensures ClockRound(d) % CLOCK_RATE == 0
    ensures ClockRound(d) > 0 <==> d >= CLOCK_RATE / 2
    ensures d >= 0 ==> -(CLOCK_RATE / 2) < ClockRound(d) - d <= CLOCK_RATE / 2
  {
  }

  function Round(x: real): int {
    if x - x.Floor as real >= 0.5 then x.Floor + 1 else x.Floor
  }

  // How many bytes one sample may have.
  function SampleLimit(rate: int, sRate: nat): (limit: nat)
    ensures limit >= 1
  {
    var limit := Round(rate as real * (sRate as real / SECOND as real));
    if limit <= 0 then 1 else limit
  }

  // The allowance of a sample is off by at most half a byte, and one byte when
  // the rate is too low for half a byte per sample.
  lemma SampleLimitIsNearest(rate: nat, sRate: nat)
    ensures 2 * rate * sRate >= SECOND ==>
      2 * rate * sRate - SECOND < 2 * SampleLimit(rate, sRate) * SECOND <= 2 * rate * sRate + SECOND
    ensures 2 * rate * sRate < SECOND ==> SampleLimit(rate, sRate) == 1
  {
    var x := rate as real * (sRate as real / SECOND as real);
    assert x * SECOND as real == (rate * sRate) as real by {
      assert rate as real * sRate as real == (rate * sRate) as real;
    }
  }

  // The time of the machine: it never goes back, and a sleep takes at least as
  // long as it was asked to.
  class Clock {
    var raw: nat
    const zero: nat

    constructor (raw: nat)
      ensures Valid() && this.raw == raw
    {
      this.raw := raw;
      zero := raw / CLOCK_RATE * CLOCK_RATE;
    }

    ghost predicate Valid()
      reads this
    {
      zero <= raw && zero % CLOCK_RATE == 0
    }

    ghost function Time(): (t: nat)
      requires Valid()
      reads this
      ensures t <= raw - zero < t + CLOCK_RATE
    {
      raw / CLOCK_RATE * CLOCK_RATE - zero
    }

    method Now() returns (t: nat)
      requires Valid()
      modifies this`raw
      ensures Valid() && raw >= old(raw) && t == Time() && t >= old(Time())
    {
      var passed: nat :| true;
      raw := raw + passed;
      t := raw / CLOCK_RATE * CLOCK_RATE - zero;
    }

    method Sleep(d: nat)
      requires Valid()
      modifies this`raw
      ensures Valid() && raw >= old(raw) + d && Time() >= old(Time())
    {
      var extra: nat :| true;
      raw := raw + d + extra;
    }
  }

  // What the monitor has counted.
  datatype Account = Account(bytes: nat, sBytes: nat, samples: nat, sLast: nat)
  {
    function Total(): nat {
      bytes + sBytes
    }

    // The account after n more bytes at the time now.
    function Counted(sRate: nat, n: nat, now: nat): Account {
      if now >= sLast + sRate then Account(bytes + sBytes + n, 0, samples + 1, now)
      else Account(bytes, sBytes + n, samples, sLast)
    }
  }

  class Monitor {
    const clock: Clock
    const sRate: nat
    var active: bool
    var start: nat
    var bytes: nat
    var samples: nat
    var rSample: real
    var rEMA: real
    var rPeak: real
    var sBytes: nat
    var sLast: nat
    var tLast: nat

    ghost predicate Valid()
      reads this, clock
    {
      && clock.Valid() && sRate > 0
      && start <= sLast <= clock.Time() && tLast <= clock.Time()
      && 0.0 <= rSample <= rPeak && 0.0 <= rEMA <= rPeak
      && (!active ==> sBytes == 0)
    }

    ghost function View(): Account
      reads this
    {
      Account(bytes, sBytes, samples, sLast)
    }

    // All bytes that were counted.
    ghost function Total(): nat
      reads this
    {
      View().Total()
    }

    // No sample had more than limit bytes so far, and none was short in time.
    ghost predicate Within(limit: nat)
      requires clock.Valid()
      reads this, clock
    {
      WithinAt(View(), start, clock.Time(), sRate, limit)
    }

    constructor (clock: Clock, sampleRate: int)
      requires clock.Valid()
      modifies clock`raw
      ensures Valid() && this.clock == clock && active && forall limit: nat :: Within(limit)
      ensures View() == Account(0, 0, 0, clock.Time()) && start == tLast == clock.Time()
      ensures sRate == if ClockRound(sampleRate) > 0 then ClockRound(sampleRate) else 5 * CLOCK_RATE
    {
      var rounded := ClockRound(sampleRate);
      if rounded <= 0 {
        rounded := 5 * CLOCK_RATE;
      }
      var now := clock.Now();
      this.clock := clock;
      sRate := rounded;
      active := true;
      start, sLast, tLast := now, now, now;
      bytes, samples, sBytes := 0, 0, 0;
      rSample, rEMA, rPeak := 0.0, 0.0, 0.0;
      new;
      StartsWithin(now, rounded);
    }

    // Counts n bytes, and ends the sample when it has lasted long enough.
    method Update(n: nat) returns (now: nat)
      requires Valid()
      modifies this, clock`raw
      ensures Valid() && active == old(active) && start == old(start) && clock.raw >= old(clock.raw)
      ensures !active ==> now == 0 && View() == old(View()) && tLast == old(tLast)
      ensures active ==> now == clock.Time() && now < sLast + sRate && View() == old(View()).Counted(sRate, n, now)
      ensures active ==> tLast == if n > 0 then now else old(tLast)
      ensures active ==> Total() == old(Total()) + n && (now < old(sLast) + sRate ==> sBytes == old(sBytes) + n)
      ensures active && now >= old(sLast) + sRate ==> sLast == now && sBytes == 0 && samples == old(samples) + 1
      ensures forall limit: nat :: old(Within(limit)) && (active ==> old(sBytes) + n <= limit) ==> Within(limit)
    {
      if !active {
        return 0;
      }
      ghost var a, before := View(), clock.Time();
      now := clock.Now();
      Count(n, now);
      forall limit: nat | old(Within(limit)) && a.sBytes + n <= limit ensures Within(limit) {
        CountedWithin(a, start, before, sRate, limit, n, now);
      }
    }

    method Count(n: nat, now: nat)
      requires sRate > 0 && sLast <= now && 0.0 <= rSample <= rPeak && 0.0 <= rEMA <= rPeak
      modifies this`bytes, this`samples, this`sBytes, this`sLast, this`tLast, this`rSample, this`rPeak, this`rEMA
      ensures View() == old(View()).Counted(sRate, n, now) && tLast == if n > 0 then now else old(tLast)
      ensures 0.0 <= rSample <= rPeak && 0.0 <= rEMA <= rPeak
    {
      if n > 0 {
        tLast := now;
      }
      sBytes := sBytes + n;
      var sTime := now - sLast;
      if sTime >= sRate {
        Sampled(sTime as real / SECOND as real);
        Reset(now);
      }
    }

    // The rate of the sample that ends, the highest rate so far and the moving
    // average, whose weight is an exponential of a negative number.
    method Sampled(t: real)
      requires t > 0.0 && 0.0 <= rSample <= rPeak && 0.0 <= rEMA <= rPeak
      modifies this`rSample, this`rPeak, this`rEMA
      ensures rSample == sBytes as real / t && rPeak == (if old(rPeak) < rSample then rSample else old(rPeak))
      ensures samples == 0 ==> rEMA == rSample
      ensures samples > 0 ==> Between(old(rEMA), rEMA, rSample)
      ensures 0.0 <= rSample <= rPeak && 0.0 <= rEMA <= rPeak
    {
      rSample := sBytes as real / t;
      if rSample > rPeak {
        rPeak := rSample;
      }
      if samples > 0 {
        var w := ExpOfNegative();
        var d := rEMA - rSample;
        MovingAverage(rEMA, rSample, d, w);
        rEMA := rSample + w * d;
      } else {
        rEMA := rSample;
      }
    }

    method ExpOfNegative() returns (w: real)
      ensures 0.0 < w <= 1.0
    {
      w := *;
      if !(0.0 < w <= 1.0) {
        w := 1.0;
      }
    }

    method Reset(sampleTime: nat)
      modifies this`bytes, this`samples, this`sBytes, this`sLast
      ensures bytes == old(bytes) + old(sBytes) && samples == old(samples) + 1 && sBytes == 0 && sLast == sampleTime
    {
      bytes := bytes + sBytes;
      samples := samples + 1;
      sBytes := 0;
      sLast := sampleTime;
    }

    // Sleeps until the current sample is over.
    method WaitNextSample(now: nat) returns (now': nat)
      requires Valid() && active && now < sLast + sRate
      modifies this, clock`raw
      ensures Valid() && active && start == old(start) && clock.raw >= old(clock.raw) + MIN_WAIT
      ensures now' == clock.Time() && now' < sLast + sRate
      ensures sBytes == 0 && Total() == old(Total()) && sLast >= old(sLast) + sRate && samples == old(samples) + 1
      ensures forall limit: nat :: old(Within(limit)) ==> Within(limit)
    {
      now' := now;
      var current := sLast;
      while sLast == current && active
        invariant Valid() && active && start == old(start) && clock.raw >= old(clock.raw)
        invariant Total() == old(Total()) && now' < sLast + sRate
        invariant forall limit: nat :: old(Within(limit)) ==> Within(limit)
        invariant sLast == current ==> sBytes == old(sBytes) && samples == old(samples)
        invariant sLast != current ==> sBytes == 0 && sLast >= current + sRate && samples == old(samples) + 1
        invariant sLast != current ==> now' == clock.Time() && clock.raw >= old(clock.raw) + MIN_WAIT
        decreases sLast == current, clock.zero + current + sRate + CLOCK_RATE - clock.raw
      {
        var d := current + sRate - now';
        if d < MIN_WAIT {
          d := MIN_WAIT;
        }
        clock.Sleep(d);
        now' := Update(0);
      }
    }

    method WaitForRoom(limit: nat, now: nat)
      requires Valid() && limit > 0 && (active ==> now < sLast + sRate)
      modifies this, clock`raw
      ensures Valid() && active == old(active) && start == old(start) && Total() == old(Total())
      ensures active ==> sBytes < limit && (sBytes == old(sBytes) || sBytes == 0)
      ensures forall limit: nat :: old(Within(limit)) ==> Within(limit)
    {
      var now': nat := now;
      while sBytes >= limit && active
        invariant Valid() && active == old(active) && start == old(start) && Total() == old(Total())
        invariant active ==> now' < sLast + sRate && (sBytes == old(sBytes) || sBytes == 0)
        invariant forall limit: nat :: old(Within(limit)) ==> Within(limit)
        decreases sBytes
      {
        now' := WaitNextSample(now');
      }
    }

    // As many of want bytes as fit what is left of the sample at rate bytes per
    // second; a blocking call waits until it is at least one.
    method Limit(want: nat, rate: int, block: bool) returns (n: nat)
      requires Valid()
      modifies this, clock`raw
      ensures Valid() && active == old(active) && start == old(start) && Total() == old(Total())
      ensures forall limit: nat :: old(Within(limit)) ==> Within(limit)
      ensures want < 1 || rate < 1 || !active ==> n == want
      ensures n <= want && (active ==> sBytes == old(sBytes) || sBytes == 0)
      ensures want >= 1 && rate >= 1 && active && n > 0 ==> sBytes + n <= SampleLimit(rate, sRate)
      ensures want >= 1 && rate >= 1 && active && n < want ==> sBytes + n >= SampleLimit(rate, sRate)
      ensures want >= 1 && (block || rate < 1 || !active) ==> n >= 1
    {
      if want < 1 || rate < 1 {
        return want;
      }
      var limit := SampleLimit(rate, sRate);
      var now := Update(0);
      if block {
        WaitForRoom(limit, now);
      }
      var left := limit - sBytes;
      if left > want || !active {
        left := want;
      }
      if left < 0 {
        left := 0;
      }
      return left;
    }

    // The end of the transfer; everything that was counted is reported.
    method Done() returns (n: nat)
      requires Valid()
      modifies this, clock`raw
      ensures Valid() && !active && sBytes == 0 && tLast == 0 && n == bytes == old(Total())
      ensures forall limit: nat :: old(Within(limit)) && old(active) ==> n * sRate <= limit * (clock.Time() - start + sRate)
    {
      var now := Update(0);
      forall limit: nat | old(Within(limit)) && old(active) ensures Total() * sRate <= limit * (clock.Time() - start + sRate) {
        RateBound(limit);
      }
      if sBytes > 0 {
        Reset(now);
      }
      active := false;
      tLast := 0;
      n := bytes;
    }

    // The rate over the whole transfer: up to one sample's allowance on top of
    // the limit times the time that has passed.
    lemma RateBound(limit: nat)
      requires Valid() && Within(limit)
      ensures Total() * sRate <= limit * (clock.Time() - start + sRate)
    {
      TotalWithin(View(), start, clock.Time(), sRate, limit);
    }
  }

  ghost predicate Between(a: real, x: real, b: real) {
    a <= x <= b || b <= x <= a
  }

  lemma MovingAverage(rEMA: real, rSample: real, d: real, w: real)
    requires 0.0 < w <= 1.0 && d == rEMA - rSample
    ensures Between(rEMA, rSample + w * d, rSample)
  {
    if d >= 0.0 {
      Shrinks(w, d);
    } else {
      Shrinks(w, -d);
      assert w * -d == -(w * d);
    }
  }

  lemma Shrinks(w: real, d: real)
    requires 0.0 < w <= 1.0 && d >= 0.0
    ensures 0.0 <= w * d <= d
  {
    assert (1.0 - w) * d >= 0.0;
  }

  lemma SampleFits(bytes: nat, sBytes: nat, sRate: nat, limit: nat, before: nat, sTime: nat)
    requires bytes * sRate <= limit * before && sBytes <= limit && sRate <= sTime
    ensures (bytes + sBytes) * sRate <= limit * (before + sTime)
  {
    MulLe(sBytes, limit, sRate);
    MulLe(sRate, sTime, limit);
    assert (bytes + sBytes) * sRate == bytes * sRate + sBytes * sRate;
    assert limit * (before + sTime) == limit * before + sTime * limit;
  }

  // ---- Whole transfers ----

  ghost function Sum(amounts: nat -> nat, n: nat): nat {
    if n == 0 then 0 else Sum(amounts, n - 1) + amounts(n - 1)
  }

  // Step i of a transfer counts amounts(i) bytes at times(i + 1), no more than
  // what is left of the allowance of the current sample.
  ghost predicate StepWithin(run: nat -> Account, times: nat -> nat, amounts: nat -> nat, sRate: nat, limit: nat, i: nat) {
    && times(i) <= times(i + 1) && run(i).sBytes + amounts(i) <= limit
    && run(i + 1) == run(i).Counted(sRate, amounts(i), times(i + 1))
  }

  // An account that started at the time start, within the limit at the time now.
  ghost predicate WithinAt(a: Account, start: nat, now: nat, sRate: nat, limit: nat) {
    && start <= a.sLast <= now && a.sBytes <= limit
    && a.samples * sRate <= a.sLast - start
    && a.bytes * sRate <= limit * (a.sLast - start)
  }

  lemma StartsWithin(start: nat, sRate: nat)
    ensures forall limit: nat :: WithinAt(Account(0, 0, 0, start), start, start, sRate, limit)
  {
  }

  lemma CountedWithin(a: Account, start: nat, now: nat, sRate: nat, limit: nat, n: nat, now': nat)
    requires sRate > 0 && WithinAt(a, start, now, sRate, limit) && a.sBytes + n <= limit && now <= now'
    ensures WithinAt(a.Counted(sRate, n, now'), start, now', sRate, limit)
    ensures a.Counted(sRate, n, now').Total() == a.Total() + n
  {
    if now' >= a.sLast + sRate {
      SampleFits(a.bytes, a.sBytes + n, sRate, limit, a.sLast - start, now' - a.sLast);
      assert (a.samples + 1) * sRate == a.samples * sRate + sRate;
    }
  }

  // Over a whole transfer no byte is lost, and up to one sample's allowance the
  // bytes stay below the limit times the time that has passed.
  lemma {:induction false} RunWithinRate(run: nat -> Account, times: nat -> nat, amounts: nat -> nat, sRate: nat,
                                         limit: nat, n: nat)
    requires sRate > 0 && run(0) == Account(0, 0, 0, times(0))
    requires forall i: nat :: i < n ==> StepWithin(run, times, amounts, sRate, limit, i)
    ensures WithinAt(run(n), times(0), times(n), sRate, limit)
    ensures run(n).Total() == Sum(amounts, n)
    ensures Sum(amounts, n) * sRate <= limit * (times(n) - times(0) + sRate)
  {
    if n > 0 {
      RunWithinRate(run, times, amounts, sRate, limit, n - 1);
      assert StepWithin(run, times, amounts, sRate, limit, n - 1);
      CountedWithin(run(n - 1), times(0), times(n - 1), sRate, limit, amounts(n - 1), times(n));
    }
    TotalWithin(run(n), times(0), times(n), sRate, limit);
  }

  lemma TotalWithin(a: Account, start: nat, now: nat, sRate: nat, limit: nat)
    requires WithinAt(a, start, now, sRate, limit)
    ensures a.Total() * sRate <= limit * (now - start + sRate)
  {
    MulLe(a.sBytes, limit, sRate);
    MulLe(a.sLast - start, now - start, limit);
    assert (a.bytes + a.sBytes) * sRate == a.bytes * sRate + a.sBytes * sRate;
    assert limit * (now - start + sRate) == (now - start) * limit + limit * sRate;
  }

  // ---- Streams ----

  class Sink {
    var data: seq<byte>
    // How many bytes each write was given.
    ghost var given: seq<nat>

    // A write that stores less than it was given reports an error.
    method Write(s: seq<byte>) returns (c: nat, ok: bool)
      modifies this
      ensures c <= |s| && (ok ==> c == |s|) && data == old(data) + s[..c] && given == old(given) + [|s|]
    {
      given := given + [|s|];
      ok := *;
      c := |s|;
      if !ok {
        c :| 0 <= c <= |s|;
      }
      data := data + s[..c];
    }
  }

  class Source {
    var data: seq<byte>
    // How many bytes each read asked for.
    ghost var asked: seq<nat>

    // A read takes any number of bytes from the front, up to what fits.
    method Read(p: array<byte>, limit: nat) returns (n: nat, ok: bool)
      requires limit <= p.Length
      modifies this, p
      ensures n <= limit && n <= |old(data)| && data == old(data)[n..] && asked == old(asked) + [limit]
      ensures p[..] == old(data)[..n] + old(p[..])[n..]
    {
      asked := asked + [limit];
      n :| 0 <= n <= limit && n <= |data|;
      ok := *;
      forall i | 0 <= i < n { p[i] := data[i]; }
      data := data[n..];
    }
  }

  datatype WriteError = NoError | Failed | ErrLimit

  // Every write behind the first one was given what fits a whole sample; the
  // last one may have had less if it is over.
  ghost predicate AllFull(given: seq<nat>, first: nat, limit: nat, more: bool) {
    forall k :: first < k < |given| && (more || k < |given| - 1) ==> given[k] == limit
  }

  class Writer {
    const sink: Sink
    const monitor: Monitor
    var limit: int
    var block: bool

    constructor (sink: Sink, monitor: Monitor, limit: int)
      ensures this.sink == sink && this.monitor == monitor && this.limit == limit && block
    {
      this.sink := sink;
      this.monitor := monitor;
      this.limit := limit;
      block := true;
    }

    // Writes p in order, in pieces of at least one byte that fit the limit. A
    // blocking writer never gives up because of the limit, and fills a sample
    // with each write but the first and the last.
    method Write(p: seq<byte>) returns (n: nat, err: WriteError)
      requires monitor.Valid()
      modifies sink, monitor, monitor.clock`raw
      ensures monitor.Valid() && monitor.active == old(monitor.active) && monitor.start == old(monitor.start)
      ensures n <= |p| && sink.data == old(sink.data) + p[..n]
      ensures err == NoError ==> n == |p|
      ensures err == ErrLimit ==> !block && limit >= 1 && monitor.active && n < |p|
      ensures err == ErrLimit ==> SampleLimit(limit, monitor.sRate) <= monitor.sBytes
      ensures block && limit >= 1 && monitor.active ==>
        forall k :: |old(sink.given)| < k < |sink.given| - 1 ==> sink.given[k] == SampleLimit(limit, monitor.sRate)
      ensures limit < 1 || !monitor.active ==> sink.given == old(sink.given) + if p == [] then [] else [|p|]
      ensures monitor.active ==> monitor.Total() == old(monitor.Total()) + n
      ensures limit >= 1 && monitor.active && old(monitor.Within(SampleLimit(limit, monitor.sRate))) ==>
        monitor.Within(SampleLimit(limit, monitor.sRate))
    {
      n, err := 0, NoError;
      while n < |p| && err == NoError
        invariant monitor.Valid() && monitor.active == old(monitor.active) && monitor.start == old(monitor.start)
        invariant n <= |p| && sink.data == old(sink.data) + p[..n] && err != ErrLimit
        invariant limit < 1 || !monitor.active ==> n == 0 || n == |p| || err != NoError
        invariant err == NoError || p != []
        invariant |old(sink.given)| <= |sink.given| && (n == 0 && err == NoError ==> sink.given == old(sink.given))
        invariant block && limit >= 1 && monitor.active ==>
          AllFull(sink.given, |old(sink.given)|, SampleLimit(limit, monitor.sRate), n < |p| && err == NoError)
        invariant limit >= 1 && monitor.active && 0 < n < |p| && err == NoError ==>
          monitor.sBytes == 0 || SampleLimit(limit, monitor.sRate) <= monitor.sBytes
        invariant limit < 1 || !monitor.active ==>
          sink.given == old(sink.given) + if n == 0 && err == NoError then [] else [|p|]
        invariant monitor.active ==> monitor.Total() == old(monitor.Total()) + n
        invariant limit >= 1 && monitor.active && old(monitor.Within(SampleLimit(limit, monitor.sRate))) ==>
          monitor.Within(SampleLimit(limit, monitor.sRate))
        decreases |p| - n, err == NoError
      {
        var allowed := monitor.Limit(|p| - n, limit, block);
        if allowed == 0 {
          return n, ErrLimit;
        }
        var c;
        c, err := WriteSome(p, n, allowed);
        n := n + c;
      }
    }

    method WriteSome(p: seq<byte>, n: nat, allowed: nat) returns (c: nat, err: WriteError)
      requires monitor.Valid() && n + allowed <= |p|
      modifies sink, monitor, monitor.clock`raw
      ensures monitor.Valid() && monitor.active == old(monitor.active) && monitor.start == old(monitor.start)
      ensures c <= allowed && err != ErrLimit && (err == NoError ==> c == allowed)
      ensures sink.data == old(sink.data) + p[n..n + c] && sink.given == old(sink.given) + [allowed]
      ensures monitor.active ==> monitor.sBytes == old(monitor.sBytes) + c || monitor.sBytes == 0
      ensures monitor.active ==> monitor.Total() == old(monitor.Total()) + c
      ensures forall limit: nat :: old(monitor.Within(limit)) && old(monitor.sBytes) + allowed <= limit ==> monitor.Within(limit)
    {
      var ok;
      c, ok := sink.Write(p[n..n + allowed]);
      assert p[n..n + allowed][..c] == p[n..n + c];
      err := if ok then NoError else Failed;
      var now := monitor.Update(c);
    }
  }

  class Reader {
    const source: Source
    const monitor: Monitor
    var limit: int
    var block: bool

    constructor (source: Source, monitor: Monitor, limit: int)
      ensures this.source == source && this.monitor == monitor && this.limit == limit && block
    {
      this.source := source;
      this.monitor := monitor;
      this.limit := limit;
      block := true;
    }

    // Reads what the limit allows, from the front of the source.
    method Read(p: array<byte>) returns (n: nat, ok: bool)
      requires monitor.Valid()
      modifies p, source, monitor, monitor.clock`raw
      ensures monitor.Valid() && monitor.active == old(monitor.active)
      ensures n <= p.Length && n <= |old(source.data)| && source.data == old(source.data)[n..]
      ensures p[..] == old(source.data)[..n] + old(p[..])[n..]
      ensures (limit < 1 || !monitor.active) && p.Length > 0 ==> source.asked == old(source.asked) + [p.Length]
      ensures monitor.active ==> monitor.Total() == old(monitor.Total()) + n
      ensures limit >= 1 && monitor.active && old(monitor.Within(SampleLimit(limit, monitor.sRate))) ==>
        monitor.Within(SampleLimit(limit, monitor.sRate))
    {
      var allowed := monitor.Limit(p.Length, limit, block);
      n, ok := 0, true;
      if allowed > 0 {
        n, ok := source.Read(p, allowed);
        var now := monitor.Update(n);
      }
    }
  }
}
