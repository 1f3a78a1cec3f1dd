/** The bandwidth limit of handle_io (ftpdataio.c) in exact arithmetic: bytes moved between clock readings. */
module RateLimit {

  const STALLED: real := 0.01
  const UINT_RANGE: int := 0x1_0000_0000

  /** (unsigned int) of a non-negative double, truncated as on machines that convert by way of 64 bits. */
  function ToUnsigned(x: real): nat
    requires x >= 0.0
  {
    x.Floor % UINT_RANGE
  }

  /** One call of handle_io for the data connection: bytes moved, clock on entry, time slept beyond what was asked. */
  datatype Io = Io(bytes: nat, now: real, slept: real)

  function Elapsed(start: real, now: real): (e: real)
    ensures e > 0.0
  {
    if now - start <= 0.0 then STALLED else now - start
  }

  function Rate(start: real, io: Io): nat {
    ToUnsigned(io.bytes as real / Elapsed(start, io.now))
  }

  /** The pause asked for when the rate is too high. */
  function Pause(start: real, io: Io, max: nat): real
    requires max > 0
  {
    (Rate(start, io) as real / max as real - 1.0) * Elapsed(start, io.now)
  }

  /** bw_send_start after the call. */
  function NextStart(start: real, io: Io, max: nat): real {
    if max == 0 || io.bytes == 0 then start
    else if Rate(start, io) <= max then io.now
    else io.now + Pause(start, io, max) + io.slept
  }

  /** The clock has advanced, the rate fits an unsigned int, and a pause takes at least the time asked for. */
  predicate Regular(start: real, io: Io) {
    && io.bytes > 0 && start < io.now && io.slept >= 0.0
    && io.bytes as real < UINT_RANGE as real * (io.now - start)
  }

  /** struct vsf_session, as far as handle_io uses it. */
  class Bandwidth {
    const bwRateMax: nat
    var bwSendStart: real
    var dataProgress: bool

    constructor (max: nat, start: real)
      ensures bwRateMax == max && bwSendStart == start && !dataProgress
    {
      bwRateMax, bwSendStart, dataProgress := max, start, false;
    }

    /** handle_io */
    method HandleIo(retval: int, onDataFd: bool, now: real, slept: real)
      modifies this
      ensures dataProgress == (old(dataProgress) || (onDataFd && retval > 0))
      ensures bwSendStart == if onDataFd && retval > 0
                             then NextStart(old(bwSendStart), Io(retval, now, slept), bwRateMax)
                             else old(bwSendStart)
    {
      if !onDataFd || retval <= 0 {
        return;
      }
      dataProgress := true;
      if bwRateMax == 0 {
        return;
      }
      var elapsed := now - bwSendStart;
      if elapsed <= 0.0 {
        elapsed := STALLED;
      }
      var rate := ToUnsigned(retval as real / elapsed);
      if rate <= bwRateMax {
        bwSendStart := now;
        return;
      }
      var pause := (rate as real / bwRateMax as real - 1.0) * elapsed;
      bwSendStart := now + pause + slept;
    }
  }

  // ---------------------------------------------------------------- products, kept away from the solver

  function Times(a: real, b: real): real { a * b }

  lemma Scale(a: real, b: real, e: real)
    ensures e >= 0.0 && a <= b ==> Times(a, e) <= Times(b, e)
    ensures e > 0.0 && a < b ==> Times(a, e) < Times(b, e)
  {
  }

  lemma Laws(a: real, b: real, e: real)
    ensures Times(a + b, e) == Times(a, e) + Times(b, e)
    ensures Times(e, a + b) == Times(e, a) + Times(e, b)
    ensures Times(1.0, e) == e && Times(e, 1.0) == e
    ensures Times(Times(a, b), e) == Times(a, Times(b, e))
    ensures Times(a, b) == Times(b, a)
  {
  }

  lemma Quotient(x: real, e: real)
    requires e != 0.0
    ensures Times(x / e, e) == x
  {
  }

  // ---------------------------------------------------------------- one window

  lemma Fits(n: real, e: real, x: real, bound: real)
    requires e > 0.0 && Times(x, e) == n && n < Times(bound, e)
    ensures x < bound
  {
    hide Times;
    Scale(bound, x, e);
  }

  lemma Rounded(n: real, e: real, x: real, r: real)
    requires e > 0.0 && Times(x, e) == n && r <= x < r + 1.0
    ensures Times(r, e) <= n < Times(r, e) + e
  {
    hide Times;
    Scale(r, x, e);
    Scale(x, r + 1.0, e);
    Laws(r, 1.0, e);
  }

  lemma RateIsFloor(start: real, io: Io)
    requires Regular(start, io)
    ensures Rate(start, io) == (io.bytes as real / (io.now - start)).Floor
  {
    var e := io.now - start;
    var x := io.bytes as real / e;
    assert io.bytes as real < Times(UINT_RANGE as real, e);
    hide Times;
    Quotient(io.bytes as real, e);
    Fits(io.bytes as real, e, x, UINT_RANGE as real);
    assert 0 <= x.Floor < UINT_RANGE;
  }

  /** The rate of a regular call is the true rate, rounded down. */
  lemma RateIsTrue(start: real, io: Io)
    requires Regular(start, io)
    ensures var r, e := Rate(start, io) as real, io.now - start;
            Times(r, e) <= io.bytes as real < Times(r, e) + e
  {
    RateIsFloor(start, io);
    hide Rate, Times;
    Quotient(io.bytes as real, io.now - start);
    Rounded(io.bytes as real, io.now - start, io.bytes as real / (io.now - start), Rate(start, io) as real);
  }

  /** e, stretched by the ratio of a rate to the limit it exceeds. */
  lemma Stretched(r: real, m: real, e: real)
    requires 0.0 < m < r && e > 0.0
    ensures var asked := e + Times(r / m - 1.0, e);
            asked > 0.0 && Times(m, asked) == Times(r, e) && Times(r, e) + e <= Times(m + 1.0, asked)
  {
    hide Times;
    var q := r / m;
    Quotient(r, m);
    Laws(1.0, 1.0, m);
    Scale(q, 1.0, m);
    assert q > 1.0;
    Laws(q - 1.0, 1.0, e);
    assert e + Times(q - 1.0, e) == Times(q, e);
    Scale(1.0, q, e);
    Laws(q, m, e);
    Laws(m, q, e);
    Laws(m, 1.0, Times(q, e));
  }

  /** The length of the window a call closes. */
  function Window(start: real, io: Io, max: nat): real {
    NextStart(start, io, max) - start
  }

  lemma WindowLength(start: real, io: Io, max: nat)
    requires max > 0 && Regular(start, io)
    ensures var e, r := io.now - start, Rate(start, io);
            Window(start, io, max) == if r <= max then e else e + Times(r as real / max as real - 1.0, e) + io.slept
  {
    hide Rate;
  }

  /** The arithmetic of a window: n bytes in time e at rounded rate r, stretched and overslept when r is over m. */
  lemma WithinLimit(n: real, e: real, r: real, m: real, slept: real)
    requires e > 0.0 && m > 0.0 && slept >= 0.0 && n < Times(r, e) + e
    ensures r <= m ==> n < Times(m + 1.0, e)
    ensures r > m ==> var asked := e + Times(r / m - 1.0, e);
                      && asked > 0.0 && Times(m, asked) == Times(r, e) && n < Times(m + 1.0, asked + slept)
  {
    hide Times;
    Laws(r, 1.0, e);
    Scale(r + 1.0, m + 1.0, e);
    if r > m {
      Stretched(r, m, e);
      var asked := e + Times(r / m - 1.0, e);
      Scale(asked, asked + slept, m + 1.0);
      Laws(m + 1.0, asked, 1.0);
      Laws(m + 1.0, asked + slept, 1.0);
    }
  }

  lemma WindowTimes(start: real, io: Io, max: nat)
    requires max > 0 && Regular(start, io)
    ensures Window(start, io, max) > 0.0
    ensures io.bytes as real < Times(max as real + 1.0, Window(start, io, max))
    ensures Rate(start, io) > max && io.slept == 0.0 ==>
      Times(max as real, Window(start, io, max)) <= io.bytes as real
  {
    RateIsTrue(start, io);
    WindowLength(start, io, max);
    hide Rate, Window, Times;
    WithinLimit(io.bytes as real, io.now - start, Rate(start, io) as real, max as real, io.slept);
  }

  /** Every window is within the limit, and one that was stretched, and not overslept, is no slower than the limit. */
  lemma {:induction false} WindowBound(start: real, io: Io, max: nat)
    requires max > 0 && Regular(start, io)
    ensures Window(start, io, max) > 0.0
    ensures io.bytes as real < (max as real + 1.0) * Window(start, io, max)
    ensures Rate(start, io) > max && io.slept == 0.0 ==> max as real * Window(start, io, max) <= io.bytes as real
  {
    hide Rate, Window;
    WindowTimes(start, io, max);
  }

  // ---------------------------------------------------------------- runs

  /** bw_send_start after a run of calls. */
  function RunEnd(start: real, ios: seq<Io>, max: nat): real
    decreases |ios|
  {
    if ios == [] then start else RunEnd(NextStart(start, ios[0], max), ios[1..], max)
  }

  function RunBytes(ios: seq<Io>): nat {
    if ios == [] then 0 else ios[0].bytes + RunBytes(ios[1..])
  }

  predicate RegularRun(start: real, ios: seq<Io>, max: nat)
    decreases |ios|
  {
    ios == [] || (Regular(start, ios[0]) && RegularRun(NextStart(start, ios[0], max), ios[1..], max))
  }

  /** Over any run of consecutive windows the bytes moved stay below the limit for the whole time. */
  lemma {:induction false} RunBound(start: real, ios: seq<Io>, max: nat)
    requires max > 0 && ios != [] && RegularRun(start, ios, max)
    ensures RunEnd(start, ios, max) > start
    ensures RunBytes(ios) as real < (max as real + 1.0) * (RunEnd(start, ios, max) - start)
    decreases |ios|
  {
    RunTimes(start, ios, max);
    hide RunEnd, RunBytes;
  }

  lemma {:induction false} RunTimes(start: real, ios: seq<Io>, max: nat)
    requires max > 0 && ios != [] && RegularRun(start, ios, max)
    ensures RunEnd(start, ios, max) > start
    ensures RunBytes(ios) as real < Times(max as real + 1.0, RunEnd(start, ios, max) - start)
    decreases |ios|
  {
    hide Times;
    var m := max as real + 1.0;
    var next := NextStart(start, ios[0], max);
    WindowTimes(start, ios[0], max);
    hide NextStart, Regular;
    if ios[1..] == [] {
      assert RunEnd(next, [], max) == next && RunBytes([]) == 0;
    } else {
      RunTimes(next, ios[1..], max);
      Laws(next - start, RunEnd(start, ios, max) - next, m);
    }
  }

  // ---------------------------------------------------------------- and beyond 32 bits

  /** The window is within the limit. */
  predicate Within(start: real, io: Io, max: nat) {
    io.bytes as real < (max as real + 1.0) * Window(start, io, max)
  }

  /** A rate of 2^32 or more wraps around, and then the rate worked with is too small by that much at least. */
  lemma WrappedRate(start: real, io: Io)
    requires start < io.now && io.bytes as real >= Times(UINT_RANGE as real, io.now - start)
    ensures Times(UINT_RANGE as real + Rate(start, io) as real, io.now - start) <= io.bytes as real
    ensures Rate(start, io) < UINT_RANGE
  {
    var e := io.now - start;
    var x := io.bytes as real / e;
    var u := UINT_RANGE as real;
    hide Times;
    Quotient(io.bytes as real, e);
    Scale(x, u, e);
    assert x >= u;
    assert x.Floor >= UINT_RANGE;
    var r := Rate(start, io);
    assert r == x.Floor % UINT_RANGE;
    WrapsBy(x.Floor);
    Scale(u + r as real, x, e);
  }

  lemma WrapsBy(n: int)
    requires n >= UINT_RANGE
    ensures n >= UINT_RANGE + n % UINT_RANGE
  {
  }

  /** The arithmetic: at a rate r that is short by u of the true one, even the stretched window is too short. */
  lemma TooShort(n: real, e: real, r: real, m: real, u: real)
    requires e > 0.0 && 1.0 <= m && m + 1.0 <= u && 0.0 <= r <= u && Times(u + r, e) <= n
    ensures r <= m ==> Times(m + 1.0, e) <= n
    ensures r > m ==> Times(m + 1.0, e + Times(r / m - 1.0, e)) <= n
  {
    hide Times;
    if r <= m {
      Scale(m + 1.0, u + r, e);
    } else {
      Stretched(r, m, e);
      var q := r / m;
      var asked := e + Times(q - 1.0, e);
      Laws(m, 1.0, asked);
      Laws(q - 1.0, 1.0, e);
      assert asked == Times(q, e);
      Laws(r, q, e);
      RatioBelow(r, m, u);
      Scale(r + q, u + r, e);
    }
  }

  lemma RatioBelow(r: real, m: real, u: real)
    requires 1.0 <= m && 0.0 <= r <= u
    ensures r / m <= u
  {
    hide Times;
    var q := r / m;
    Quotient(r, m);
    if q > u {
      Scale(u, q, m);
      Laws(m, 1.0, u);
      Scale(1.0, m, u);
    }
  }

  lemma WindowUnslept(start: real, io: Io, max: nat)
    requires max > 0 && io.bytes > 0 && start < io.now
    ensures var e, r := io.now - start, Rate(start, io);
            Window(start, io.(slept := 0.0), max) == if r <= max then e else e + Times(r as real / max as real - 1.0, e)
  {
    assert Rate(start, io.(slept := 0.0)) == Rate(start, io);
    hide Rate;
  }

  lemma BeyondIsOver(start: real, io: Io, max: nat)
    requires 0 < max < UINT_RANGE && io.bytes > 0 && start < io.now
    requires io.bytes as real >= UINT_RANGE as real * (io.now - start)
    ensures !Within(start, io.(slept := 0.0), max)
  {
    WrappedRate(start, io);
    WindowUnslept(start, io, max);
    hide Rate, Window;
    TooShort(io.bytes as real, io.now - start, Rate(start, io) as real, max as real, UINT_RANGE as real);
  }

  /**
   * With a clock that has advanced, a window is within the limit however long the pause is overslept exactly when
   * fewer than 2^32 bytes a second were moved.
   */
  lemma {:induction false} WindowBoundExactly(start: real, bytes: nat, now: real, max: nat)
    requires 0 < max < UINT_RANGE && bytes > 0 && start < now
    ensures (forall slept: real | slept >= 0.0 :: Within(start, Io(bytes, now, slept), max))
       <==> bytes as real < UINT_RANGE as real * (now - start)
  {
    if bytes as real < UINT_RANGE as real * (now - start) {
      forall slept: real | slept >= 0.0 ensures Within(start, Io(bytes, now, slept), max) {
        hide Rate, Window;
        WindowBound(start, Io(bytes, now, slept), max);
      }
    } else {
      BeyondIsOver(start, Io(bytes, now, 0.0), max);
      assert !Within(start, Io(bytes, now, 0.0), max);
    }
  }

  /** A full buffer moved in ten microseconds is too much under every limit. */
  lemma FullBufferOver(max: nat)
    requires 0 < max < UINT_RANGE
    ensures !Within(0.0, Io(65536, 0.00001, 0.0), max)
  {
    assert 65536.0 >= UINT_RANGE as real * 0.00001;
    BeyondIsOver(0.0, Io(65536, 0.00001, 0.0), max);
  }

  /** With a clock that has not advanced, a call that is not slowed down closes a window of no time at all. */
  lemma StalledClock(start: real, io: Io, max: nat)
    requires max > 0 && io.bytes > 0 && io.now <= start && Rate(start, io) <= max
    ensures !Within(start, io, max)
  {
    hide Rate;
    var window := Window(start, io, max);
    assert window <= 0.0;
    hide Window;
    Scale2(max as real + 1.0, window);
  }

  lemma Scale2(a: real, w: real)
    requires a >= 0.0 && w <= 0.0
    ensures a * w <= 0.0
  {
  }

  // ---------------------------------------------------------------- runs, exactly

  /** The clock advances from call to call, something is moved, and no pause is overslept. */
  predicate Advancing(start: real, ios: seq<Io>, max: nat)
    decreases |ios|
  {
    ios == [] || (&& ios[0].bytes > 0 && start < ios[0].now && ios[0].slept == 0.0
                  && Advancing(NextStart(start, ios[0], max), ios[1..], max))
  }

  predicate RunWithin(start: real, ios: seq<Io>, max: nat) {
    RunBytes(ios) as real < (max as real + 1.0) * (RunEnd(start, ios, max) - start)
  }

  /** Every run of consecutive windows, wherever it begins and ends, is within the limit. */
  predicate AlwaysWithin(start: real, ios: seq<Io>, max: nat)
    decreases |ios|
  {
    ios == [] || (&& (forall j | 1 <= j <= |ios| :: RunWithin(start, ios[..j], max))
                  && AlwaysWithin(NextStart(start, ios[0], max), ios[1..], max))
  }

  lemma {:induction false} RegularPrefix(start: real, ios: seq<Io>, max: nat, j: nat)
    requires RegularRun(start, ios, max) && j <= |ios|
    ensures RegularRun(start, ios[..j], max)
    decreases |ios|
  {
    if j > 0 {
      RegularPrefix(NextStart(start, ios[0], max), ios[1..], max, j - 1);
      assert ios[..j][1..] == ios[1..][..j - 1];
    }
  }

  lemma RunOfOne(start: real, io: Io, max: nat)
    ensures RunEnd(start, [io], max) == NextStart(start, io, max) && RunBytes([io]) == io.bytes
  {
    assert [io][1..] == [];
  }

  lemma PrefixWithin(start: real, ios: seq<Io>, max: nat, j: nat)
    requires max > 0 && RegularRun(start, ios, max) && 1 <= j <= |ios|
    ensures RunWithin(start, ios[..j], max)
  {
    RegularPrefix(start, ios, max, j);
    RunBound(start, ios[..j], max);
    hide *;
    assert RunWithin(start, ios[..j], max) by { Unfold(start, ios[..j], max); }
  }

  lemma Unfold(start: real, ios: seq<Io>, max: nat)
    requires RunBytes(ios) as real < (max as real + 1.0) * (RunEnd(start, ios, max) - start)
    ensures RunWithin(start, ios, max)
  {
  }

  lemma FirstIsRegular(start: real, ios: seq<Io>, max: nat)
    requires 0 < max < UINT_RANGE && ios != [] && Advancing(start, ios, max) && RunWithin(start, ios[..1], max)
    ensures Regular(start, ios[0])
  {
    var io := ios[0];
    assert ios[..1] == [io];
    RunOfOne(start, io, max);
    assert io.(slept := 0.0) == io;
    hide NextStart, RunEnd, RunBytes;
    if io.bytes as real >= UINT_RANGE as real * (io.now - start) {
      BeyondIsOver(start, io, max);
      hide *;
      OneWindow(start, io, max);
    }
  }

  lemma OneWindow(start: real, io: Io, max: nat)
    ensures RunWithin(start, [io], max) <==> Within(start, io, max)
  {
    RunOfOne(start, io, max);
  }

  /** Transfers stay within the limit throughout exactly when every single window is below 2^32 bytes a second. */
  lemma {:induction false} RunBoundExactly(start: real, ios: seq<Io>, max: nat)
    requires 0 < max < UINT_RANGE && Advancing(start, ios, max)
    ensures AlwaysWithin(start, ios, max) <==> RegularRun(start, ios, max)
    decreases |ios|
  {
    hide Regular, NextStart, RunWithin;
    if ios != [] {
      RunBoundExactly(NextStart(start, ios[0], max), ios[1..], max);
      if RegularRun(start, ios, max) {
        forall j | 1 <= j <= |ios| ensures RunWithin(start, ios[..j], max) {
          PrefixWithin(start, ios, max, j);
        }
      } else if AlwaysWithin(start, ios, max) {
        FirstIsRegular(start, ios, max);
      }
    }
  }
}
