/** Instants as integer ticks of 100 ns counted from 1601-01-01 00:00, the
    encoding the historian stores, and the 8-hour grid the exporter uses. */
module Ticks {

  const TicksPerSecond: int := 10_000_000
  const TicksPerMinute: int := 60 * TicksPerSecond
  const TicksPerHour: int := 60 * TicksPerMinute
  const TicksPerDay: int := 24 * TicksPerHour

  /** Width of one chart window: 8 hours. */
  const WindowTicks: int := 8 * TicksPerHour

  /** 1970-01-01 00:00 counted in ticks from 1601-01-01 00:00 (134774 days). */
  const UnixEpochTicks: int := 134_774 * TicksPerDay

  const NanosPerTick: int := 100

  /** A converted timestamp: an instant, or the missing marker that the
      raw sentinel 0 maps to. */
  datatype Stamp = Missing | At(ticks: int)

  /** On the 8-hour grid, i.e. at 00:00, 08:00 or 16:00 of some day. */
  predicate Aligned(t: int) {
    t % WindowTicks == 0
  }

  lemma AlignedShift(a: int, k: int)
    requires Aligned(a)
    ensures Aligned(a + k * WindowTicks)
  {
  }

  /** Two grid points closer than one window apart are equal. */
  lemma AlignedUnique(a: int, b: int)
    requires Aligned(a) && Aligned(b)
    requires a <= b < a + WindowTicks
    ensures a == b
  {
    var qa, qb := a / WindowTicks, b / WindowTicks;
    assert a == qa * WindowTicks && b == qb * WindowTicks;
    assert qa <= qb < qa + 1;
  }

  /** Round down to the 8-hour grid. */
  function FloorWindow(t: int): (r: int)
    ensures Aligned(r)
    ensures r <= t < r + WindowTicks
  {
    t - t % WindowTicks
  }

  /** Round up to the 8-hour grid; an instant already on the grid stays. */
  function CeilWindow(t: int): (r: int)
    ensures Aligned(r)
    ensures r - WindowTicks < t <= r
  {
    if t % WindowTicks == 0 then t else t - t % WindowTicks + WindowTicks
  }

  /** The floor is the greatest grid point not after t. */
  lemma FloorIsGreatest(t: int, a: int)
    requires Aligned(a) && a <= t
    ensures a <= FloorWindow(t)
  {
    var f := FloorWindow(t);
    if f < a {
      AlignedUnique(f, a);
    }
  }

  /** The ceiling is the least grid point not before t. */
  lemma CeilIsLeast(t: int, a: int)
    requires Aligned(a) && t <= a
    ensures CeilWindow(t) <= a
  {
    var c := CeilWindow(t);
    if a < c {
      AlignedUnique(a, c);
    }
  }

  /** Nanoseconds since 1970-01-01 00:00, the representation pandas rounds. */
  function UnixNanos(t: int): int {
    (t - UnixEpochTicks) * NanosPerTick
  }

  /** Flooring in nanoseconds since 1970, as pandas does with freq '8H'
      (the remainder taken with floor semantics). */
  function UnixFloorNanos(ns: int): int {
    ns - ns % (WindowTicks * NanosPerTick)
  }

  function UnixCeilNanos(ns: int): int {
    var unit := WindowTicks * NanosPerTick;
    if ns % unit == 0 then ns else ns - ns % unit + unit
  }

  /** Both epochs are midnights and 134774 days is a whole number of
      windows, so rounding against 1970 and rounding against 1601 agree. */
  lemma UnixFloorAgrees(t: int)
    ensures UnixFloorNanos(UnixNanos(t)) == UnixNanos(FloorWindow(t))
  {
    var unit := WindowTicks * NanosPerTick;
    var ns := UnixNanos(t);
    var f := FloorWindow(t);
    var q := f / WindowTicks;
    assert f == q * WindowTicks;
    assert UnixEpochTicks == 404_322 * WindowTicks;
    assert UnixNanos(f) == (q - 404_322) * unit;
    assert UnixNanos(f) <= ns < UnixNanos(f) + unit;
    assert ns - (q - 404_322) * unit < unit;
    assert ns % unit == ns - UnixNanos(f) by {
      NanosDivUnique(ns, q - 404_322, ns - (q - 404_322) * unit);
    }
  }

  lemma UnixCeilAgrees(t: int)
    ensures UnixCeilNanos(UnixNanos(t)) == UnixNanos(CeilWindow(t))
  {
    var unit := WindowTicks * NanosPerTick;
    var ns := UnixNanos(t);
    var f := FloorWindow(t);
    var q := f / WindowTicks;
    assert f == q * WindowTicks;
    assert UnixEpochTicks == 404_322 * WindowTicks;
    assert UnixNanos(f) == (q - 404_322) * unit;
    assert ns % unit == ns - UnixNanos(f) by {
      NanosDivUnique(ns, q - 404_322, ns - (q - 404_322) * unit);
    }
  }

  /** Flooring in nanoseconds is determined by quotient and remainder bounds. */
  lemma NanosDivUnique(n: int, q: int, r: int)
    requires 0 <= r < WindowTicks * NanosPerTick
    requires n == q * (WindowTicks * NanosPerTick) + r
    ensures n % (WindowTicks * NanosPerTick) == r
  {
    var unit := WindowTicks * NanosPerTick;
    var q0, r0 := n / unit, n % unit;
    assert n == q0 * unit + r0;
    assert q0 <= q < q0 + 1;
  }
}
