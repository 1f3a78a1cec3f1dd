/** How vsf_privop_pasv_listen (privops.c) draws a port and settles on one listening socket. */
module PasvPort {
  import opened Strings

  const IPPORT_RESERVED: nat := 1024
  const DRAWS: nat := 65536

  // ---------------------------------------------------------------- the range

  datatype Range = Range(min: nat, max: nat) {
    function Width(): int { max - min + 1 }
  }

  /** pasv_min_port and pasv_max_port, as far as they make sense. */
  function PortRange(minSetting: nat, maxSetting: nat): Range {
    var min := if IPPORT_RESERVED < minSetting <= 65535 then minSetting else IPPORT_RESERVED;
    var max := if min <= maxSetting < 65535 then maxSetting else 65535;
    Range(min, max)
  }

  /** Legal settings are followed exactly, and whatever the settings the range is not empty and not reserved. */
  lemma RangeIsSound(minSetting: nat, maxSetting: nat)
    ensures var r := PortRange(minSetting, maxSetting);
            && IPPORT_RESERVED <= r.min <= r.max <= 65535 && 1 <= r.Width() <= DRAWS
            && (IPPORT_RESERVED <= minSetting <= maxSetting <= 65535 ==> r == Range(minSetting, maxSetting))
  {
  }

  // ---------------------------------------------------------------- the draw

  /** Two random bytes scaled into the range, in the real arithmetic of the original: no rounding happens there. */
  function Scaled(r: Range, draw: nat): int {
    (r.min as real + (draw as real / 65536.0) * (r.max as real - r.min as real + 1.0)).Floor
  }

  lemma ScaledIsQuotient(r: Range, draw: nat)
    requires r.min <= r.max
    ensures Scaled(r, draw) == r.min + draw * r.Width() / DRAWS
  {
    var product := draw * r.Width();
    var q := product / DRAWS;
    var exact := (draw as real / 65536.0) * (r.max as real - r.min as real + 1.0);
    assert r.max as real - r.min as real + 1.0 == r.Width() as real;
    assert exact == product as real / 65536.0 by {
      ProductOfReals(draw, r.Width());
    }
    assert q * DRAWS <= product < (q + 1) * DRAWS;
    assert q as real <= exact < q as real + 1.0;
  }

  lemma ProductOfReals(a: int, b: int)
    ensures (a as real / 65536.0) * b as real == (a * b) as real / 65536.0
  {
    assert a as real * b as real == (a * b) as real by { RealProduct(a, b); }
  }

  lemma {:induction false} RealProduct(a: int, b: int)
    ensures a as real * b as real == (a * b) as real
    decreases if b < 0 then -b else b
  {
    if b > 0 {
      RealProduct(a, b - 1);
      assert a * b == a * (b - 1) + a;
      assert a as real * b as real == a as real * (b - 1) as real + a as real;
    } else if b < 0 {
      RealProduct(a, b + 1);
      assert a * b == a * (b + 1) - a;
      assert a as real * b as real == a as real * (b + 1) as real - a as real;
    }
  }

  /** Every draw lands in the range. */
  lemma ScaledInRange(r: Range, draw: nat)
    requires r.min <= r.max && draw < DRAWS
    ensures r.min <= Scaled(r, draw) <= r.max
  {
    ScaledIsQuotient(r, draw);
    QuotientBelow(draw, r.Width());
  }

  lemma QuotientBelow(draw: nat, w: nat)
    requires draw < DRAWS && w > 0
    ensures 0 <= draw * w / DRAWS < w
  {
    var q := draw * w / DRAWS;
    Monotone(draw, DRAWS - 1, w);
    Monotone(w, q, DRAWS);
  }

  // ---------------------------------------------------------------- how often each port is drawn

  /** The draws that lead to a port. */
  ghost function DrawsOf(r: Range, port: int): set<nat> {
    set draw: nat | draw < DRAWS && Scaled(r, draw) == port
  }

  function CeilDiv(a: nat, w: nat): nat
    requires w > 0
  {
    (a + w - 1) / w
  }

  lemma CeilDivBounds(a: nat, w: nat)
    requires w > 0
    ensures a <= CeilDiv(a, w) * w < a + w
  {
  }

  predicate From(x: nat, lo: nat) { lo <= x }

  ghost function Interval(lo: nat, hi: nat): set<nat> { set x: nat | x < hi && From(x, lo) }

  lemma {:induction false} IntervalSize(lo: nat, hi: nat)
    requires lo <= hi
    ensures |Interval(lo, hi)| == hi - lo
    decreases hi - lo
  {
    if lo == hi {
      assert Interval(lo, hi) == {};
    } else {
      IntervalSize(lo, hi - 1);
      assert Interval(lo, hi) == Interval(lo, hi - 1) + {hi - 1};
    }
  }

  /** The draws for the k-th port of the range form an interval. */
  lemma DrawsAreInterval(r: Range, k: nat)
    requires r.min <= r.max && k < r.Width()
    ensures var lo, hi := CeilDiv(k * DRAWS, r.Width()), CeilDiv((k + 1) * DRAWS, r.Width());
            lo <= hi <= DRAWS && DrawsOf(r, r.min + k) == Interval(lo, hi)
  {
    var w := r.Width();
    var lo, hi := CeilDiv(k * DRAWS, w), CeilDiv((k + 1) * DRAWS, w);
    CeilDivBounds(k * DRAWS, w);
    CeilDivBounds((k + 1) * DRAWS, w);
    assert lo <= hi by {
      Monotone(hi + 1, lo, w);
    }
    assert hi <= DRAWS by {
      Monotone(k + 1, w, DRAWS);
      Monotone(DRAWS + 1, hi, w);
    }
    forall draw: nat ensures draw in DrawsOf(r, r.min + k) <==> draw in Interval(lo, hi) {
      ScaledIsQuotient(r, draw);
      QuotientIs(draw * w, DRAWS, k);
      Reaches(draw, k * DRAWS, w);
      Reaches(draw, (k + 1) * DRAWS, w);
    }
  }

  lemma Monotone(a: int, b: int, w: int)
    ensures a <= b && w >= 0 ==> a * w <= b * w
  {
  }

  lemma QuotientIs(a: nat, d: nat, k: nat)
    requires d > 0
    ensures a / d == k <==> k * d <= a < (k + 1) * d
  {
    if k * d <= a < (k + 1) * d {
      var q := a / d;
      Monotone(q + 1, k, d);
      Monotone(k + 1, q, d);
    }
  }

  lemma Reaches(draw: nat, a: nat, w: nat)
    requires w > 0
    ensures draw >= CeilDiv(a, w) <==> draw * w >= a
  {
    CeilDivBounds(a, w);
    var c := CeilDiv(a, w);
    Monotone(c, draw, w);
    Monotone(draw + 1, c, w);
  }

  /** Every port of the range is drawn by the same number of draws, give or take one. */
  lemma {:induction false} DrawsAreEven(r: Range, port: nat)
    requires r.min <= port <= r.max && r.max - r.min < DRAWS
    ensures |DrawsOf(r, port)| == DRAWS / r.Width() || |DrawsOf(r, port)| == CeilDiv(DRAWS, r.Width())
  {
    var w := r.Width();
    var k: nat := port - r.min;
    DrawsAreInterval(r, k);
    var lo, hi := CeilDiv(k * DRAWS, w), CeilDiv((k + 1) * DRAWS, w);
    IntervalSize(lo, hi);
    CeilDivBounds(k * DRAWS, w);
    CeilDivBounds((k + 1) * DRAWS, w);
    Difference(lo, hi, k * DRAWS, w);
    Differ(hi - lo, w);
  }

  lemma Difference(lo: nat, hi: nat, a: nat, w: nat)
    requires a <= lo * w < a + w && a + DRAWS <= hi * w < a + DRAWS + w
    ensures DRAWS - w < (hi - lo) * w < DRAWS + w
  {
    assert (hi - lo) * w == hi * w - lo * w;
  }

  lemma Differ(n: nat, w: nat)
    requires w > 0 && DRAWS - w < n * w < DRAWS + w
    ensures n == DRAWS / w || n == CeilDiv(DRAWS, w)
  {
    NearQuotient(n, DRAWS / w, DRAWS % w, w, DRAWS);
    if DRAWS % w > 0 {
      CeilOf(DRAWS / w, DRAWS % w, w, DRAWS);
    }
  }

  lemma NearQuotient(n: nat, q: nat, s: nat, w: nat, d: nat)
    requires d == q * w + s && s < w && d - w < n * w < d + w
    ensures n == q || (s > 0 && n == q + 1)
  {
    Monotone(n + 1, q, w);
    Monotone(q + 1, n, w);
    Monotone(q + 2, n, w);
    assert (n + 1) * w == n * w + w;
    assert (q + 1) * w == q * w + w && (q + 2) * w == q * w + 2 * w;
  }

  lemma CeilOf(q: nat, s: nat, w: nat, d: nat)
    requires d == q * w + s && 0 < s < w
    ensures CeilDiv(d, w) == q + 1
  {
    assert (q + 1) * w == q * w + w && (q + 2) * w == q * w + 2 * w;
    QuotientIs(d + w - 1, w, q + 1);
  }

  // ---------------------------------------------------------------- the retry loop

  datatype BindResult = Bound | InUse | NoAccess | OtherError

  /**
   * pasv_listen_fd and the sockets the process holds; tried counts the attempts, the port and the outcome of the latest
   * are kept.
   */
  class Listener {
    var pasvListenFd: int
    var sockets: set<int>
    var tried: nat
    var lastPort: int
    var lastResult: BindResult

    constructor ()
      ensures pasvListenFd == -1 && sockets == {} && tried == 0
    {
      pasvListenFd, sockets, tried := -1, {}, 0;
      lastPort, lastResult := 0, OtherError;
    }

    /** A new socket bound to a port and listening, or why not. */
    method Attempt(port: int) returns (result: BindResult)
      requires pasvListenFd == -1
      modifies this
      ensures pasvListenFd >= 0 && pasvListenFd !in old(sockets) && sockets == old(sockets) + {pasvListenFd}
      ensures tried == old(tried) + 1 && lastPort == port && lastResult == result
    {
      assert exists fd: int :: fd >= 0 && fd !in sockets by { UnusedDescriptor(sockets); }
      var fd: int :| fd >= 0 && fd !in sockets;
      pasvListenFd := fd;
      sockets := sockets + {pasvListenFd};
      tried := tried + 1;
      result := *;
      lastPort, lastResult := port, result;
    }

    /**
     * vsf_privop_pasv_listen: a port, or None for die(), which follows a ninth attempt in vain or an error other than
     * a port in use or forbidden, and nothing else. Every socket of a failed attempt that was retried is closed again;
     * on success exactly one socket is left open, listening on a port in range.
     */
    method PasvListen(minSetting: nat, maxSetting: nat) returns (port: Option<int>)
      requires pasvListenFd == -1
      modifies this
      ensures old(tried) + 1 <= tried <= old(tried) + 9
      ensures port.Some? ==>
        && lastResult == Bound && port.value == lastPort
        && (exists draw: nat | draw < DRAWS :: port.value == Scaled(PortRange(minSetting, maxSetting), draw))
        && PortRange(minSetting, maxSetting).min <= port.value <= PortRange(minSetting, maxSetting).max
        && pasvListenFd !in old(sockets) && sockets == old(sockets) + {pasvListenFd}
      ensures port.None? ==> lastResult != Bound
      ensures port.None? && tried < old(tried) + 9 ==> lastResult == OtherError
      ensures port.None? && lastResult == OtherError ==> sockets == old(sockets) + {pasvListenFd}
      ensures port.None? && lastResult != OtherError ==> tried == old(tried) + 9 && sockets == old(sockets)
      ensures port.None? && pasvListenFd == -1 ==> tried == old(tried) + 9 && sockets == old(sockets)
    {
      var range := PortRange(minSetting, maxSetting);
      RangeIsSound(minSetting, maxSetting);
      var bindRetries := 10;
      port := None;
      bindRetries := bindRetries - 1;
      while bindRetries != 0
        invariant 0 <= bindRetries <= 9
        invariant port.None? && pasvListenFd == -1 && sockets == old(sockets)
        invariant tried == old(tried) + 9 - bindRetries
        invariant bindRetries < 9 ==> lastResult == InUse || lastResult == NoAccess
      {
        var draw: nat :| draw < DRAWS;
        ScaledInRange(range, draw);
        var thePort := Scaled(range, draw);
        var result := Attempt(thePort);
        if result == Bound {
          port := Some(thePort);
          break;
        }
        if result == OtherError {
          return None;
        }
        sockets := sockets - {pasvListenFd};
        pasvListenFd := -1;
        bindRetries := bindRetries - 1;
      }
      if bindRetries == 0 {
        return None;
      }
    }
  }

  lemma UnusedDescriptor(used: set<int>)
    ensures exists fd: int :: fd >= 0 && fd !in used
  {
    var fd := Above(used);
    assert fd >= 0 && fd !in used;
  }

  lemma {:induction false} Above(used: set<int>) returns (fd: int)
    ensures fd >= 0 && forall x | x in used :: x < fd
    decreases |used|
  {
    if x :| x in used {
      fd := Above(used - {x});
      fd := if x < fd then fd else x + 1;
      assert forall y | y in used :: y == x || y in used - {x};
    } else {
      fd := 0;
    }
  }
}
