/** The per-row arithmetic of the report: whole-GiB sizes, the usage
    percentage, the 20-cell gauge and the colour tier. Percentages are exact
    reals rather than floating-point numbers. */
module RowFormat {
  import opened DiskTypes

  /** 1024^3 bytes. */
  const GiBBytes: nat := 1073741824
  const BarLength: int := 20
  const FullGlyph: char := '█'
  const EmptyGlyph: char := '░'
  /** Shown in the Filesystem column when the device string is empty. */
  const NoDevice: string := "—"

  /** Whole gibibytes in `bytes`, rounded down. */
  function GiB(bytes: nat): (g: nat)
    ensures g * GiBBytes <= bytes < (g + 1) * GiBBytes
  {
    bytes / GiBBytes
  }

  /** Share of the volume in use, in percent; 0 for a volume of size 0. */
  function Percent(u: Usage): (p: real)
    ensures p >= 0.0
    ensures u.total == 0 ==> p == 0.0
    ensures u.total > 0 ==> p * (u.total as real) == 100.0 * (u.used as real)
    ensures u.used <= u.total ==> p <= 100.0
  {
    if u.total > 0 then
      var t, d := u.total as real, u.used as real;
      assert (d / t * 100.0) * t == 100.0 * d;
      d / t * 100.0
    else
      0.0
  }

  /** Python's `int()` on a number: truncation toward zero. */
  function Trunc(x: real): (n: int)
    ensures x >= 0.0 ==> n >= 0 && n as real <= x < n as real + 1.0
    ensures x < 0.0 ==> n <= 0 && n as real - 1.0 < x <= n as real
  {
    if x >= 0.0 then x.Floor else -((-x).Floor)
  }

  /** Number of full cells of the gauge for a percentage. */
  function Filled(percent: real): int
  {
    Trunc(percent / 100.0 * BarLength as real)
  }

  /** `[c] * n` in Python: `n` copies of `c`, nothing when `n <= 0`. */
  function Repeat(c: char, n: int): (s: string)
    ensures |s| == if n > 0 then n else 0
    ensures forall i :: 0 <= i < |s| ==> s[i] == c
    decreases n
  {
    if n <= 0 then [] else [c] + Repeat(c, n - 1)
  }

  /** The gauge: `filled` full glyphs, then empty glyphs up to 20 cells. */
  function Bar(filled: int): (bar: string)
    ensures 0 <= filled <= BarLength ==> |bar| == BarLength
    ensures filled > BarLength ==> |bar| == filled
    ensures filled < 0 ==> |bar| == BarLength - filled
    ensures forall i :: 0 <= i < |bar| ==> bar[i] == (if i < filled then FullGlyph else EmptyGlyph)
  {
    Repeat(FullGlyph, filled) + Repeat(EmptyGlyph, BarLength - filled)
  }

  function TierOf(percent: real): Tier
  {
    if percent >= 90.0 then Red else if percent >= 70.0 then Yellow else Green
  }

  /** Full cells of the gauge of a volume with usage `u`, in integers:
      `floor(20 * used / total)`, and none on an empty volume. */
  function FullCells(u: Usage): nat
  {
    if u.total == 0 then 0 else (BarLength * u.used) / u.total
  }

  /** The colour tier of a volume with usage `u`, in integers: red from 90 %,
      yellow from 70 %, green below 70 % and on an empty volume. */
  function ShareTier(u: Usage): Tier
  {
    if u.total > 0 && 10 * u.used >= 9 * u.total then Red
    else if u.total > 0 && 10 * u.used >= 7 * u.total then Yellow
    else Green
  }

  /** The gauge of a volume with usage `u`: `FullCells(u)` full cells, then
      empty cells up to 20; an over-full volume may overflow past 20 cells. */
  function Gauge(u: Usage): (bar: string)
    ensures forall i :: 0 <= i < |bar| ==> bar[i] == (if i < FullCells(u) then FullGlyph else EmptyGlyph)
    ensures |bar| == if FullCells(u) > BarLength then FullCells(u) else BarLength
    ensures u.used <= u.total ==> |bar| == BarLength
  {
    FilledOfUsage(u);
    FilledBounds(u);
    Bar(Filled(Percent(u)))
  }

  /** The colour tier of a volume with usage `u`. */
  function UsageTier(u: Usage): (t: Tier)
    ensures t == ShareTier(u)
  {
    TierOfUsage(u);
    TierOf(Percent(u))
  }

  /** The row shown for a partition whose usage query returned `u`. */
  function MakeRow(p: Partition, u: Usage): (r: Row)
    ensures r.device == p.device && r.fstype == p.fstype && r.mountpoint == p.mountpoint
    ensures r.size * GiBBytes <= u.total < (r.size + 1) * GiBBytes
    ensures r.used * GiBBytes <= u.used < (r.used + 1) * GiBBytes
    ensures r.avail * GiBBytes <= u.free < (r.avail + 1) * GiBBytes
    ensures u.total > 0 ==> r.percent == (u.used as real) / (u.total as real) * 100.0
    ensures u.total == 0 ==> r.percent == 0.0
    ensures u.used <= u.total ==> 0.0 <= r.percent <= 100.0 && |r.bar| == BarLength
    ensures forall i :: 0 <= i < |r.bar| ==> r.bar[i] == (if i < FullCells(u) then FullGlyph else EmptyGlyph)
    ensures |r.bar| == if FullCells(u) > BarLength then FullCells(u) else BarLength
    ensures r.tier == ShareTier(u)
  {
    Row(p.device, p.fstype, GiB(u.total), GiB(u.used), GiB(u.free),
        Percent(u), Gauge(u), UsageTier(u), p.mountpoint)
  }

  /** The text of the Filesystem column: the device, or a dash when it is empty. */
  function DeviceCell(r: Row): (cell: string)
    ensures cell != []
    ensures r.device != [] ==> cell == r.device
    ensures r.device == [] ==> cell == NoDevice
  {
    if r.device == [] then NoDevice else r.device
  }

  // ---------------------------------------------------------------------------
  // Exact integer readings of the percentage, the gauge and the tier

  /** Rounding a quotient of naturals down agrees with integer division. */
  lemma FloorOfQuotient(a: nat, b: nat)
    requires b > 0
    ensures ((a as real) / (b as real)).Floor == a / b
  {
    var q, m := a / b, a % b;
    var br := b as real;
    assert (a as real) == (q as real) * br + (m as real);
    assert (a as real) / br == (q as real) + (m as real) / br;
    assert 0.0 <= (m as real) / br < 1.0;
  }

  /** The number of full cells is `floor(20 * used / total)`, and 0 on an empty volume. */
  lemma FilledOfUsage(u: Usage)
    ensures Filled(Percent(u)) == FullCells(u)
  {
    if u.total > 0 {
      var t, d := u.total as real, u.used as real;
      var x := Percent(u) / 100.0 * BarLength as real;
      assert Percent(u) == d / t * 100.0;
      assert x == (20 * u.used) as real / t;
      FloorOfQuotient(20 * u.used, u.total);
    }
  }

  /** On a volume whose used bytes do not exceed its size the gauge has between
      0 and 20 full cells, and all 20 exactly when the volume is full. */
  lemma FilledBounds(u: Usage)
    ensures 0 <= Filled(Percent(u))
    ensures u.used <= u.total ==> Filled(Percent(u)) <= BarLength
    ensures u.used <= u.total ==> (Filled(Percent(u)) == BarLength <==> u.total > 0 && u.used == u.total)
  {
    FilledOfUsage(u);
    if u.total > 0 && u.used <= u.total {
      ScaledQuotientAtMost(u.used, u.total, BarLength);
    }
  }

  /** For `d <= t`, `(n * d) / t` is at most `n`, and equals `n` only when `d == t`. */
  lemma ScaledQuotientAtMost(d: nat, t: nat, n: nat)
    requires 0 < t && d <= t && n > 0
    ensures (n * d) / t <= n
    ensures (n * d) / t == n <==> d == t
  {
    var a := n * d;
    MulMonotone(n, d, t);
    assert (n + 1) * t == n * t + t;
    DivBelow(a, t, n);
    DivBelow(a, t, n - 1);
    if d < t {
      MulMonotone(n, d + 1, t);
      assert n * (d + 1) == a + n;
    }
  }

  /** Multiplying by a natural number keeps `<=`. */
  lemma MulMonotone(n: nat, x: nat, y: nat)
    requires x <= y
    ensures n * x <= n * y
  {
  }

  /** Over-full volumes (used above size) overflow the gauge past 20 cells
      exactly when `20 * used >= 21 * total`. */
  lemma FilledOverflow(u: Usage)
    ensures Filled(Percent(u)) > BarLength <==> u.total > 0 && BarLength * u.used >= (BarLength + 1) * u.total
  {
    FilledOfUsage(u);
    if u.total > 0 {
      DivBelow(BarLength * u.used, u.total, BarLength);
    }
  }

  /** `a / b <= c` exactly when `a < (c + 1) * b`. */
  lemma DivBelow(a: nat, b: nat, c: nat)
    requires b > 0
    ensures a / b <= c <==> a < (c + 1) * b
  {
    var q, m := a / b, a % b;
    assert a == q * b + m;
    if q <= c {
      assert q * b <= c * b;
    } else {
      assert (c + 1) * b <= q * b;
    }
  }

  /** `p >= c` exactly when `p * t >= c * t`, for positive `t` (here `e == p * t`). */
  lemma ScaleCompare(p: real, c: real, t: real, e: real)
    requires t > 0.0 && p * t == e
    ensures p >= c <==> e >= c * t
  {
  }

  /** The colour tier in integers: red from 90 %, yellow from 70 %, green
      below 70 % and on an empty volume. */
  lemma TierOfUsage(u: Usage)
    ensures TierOf(Percent(u)) == ShareTier(u)
  {
    if u.total > 0 {
      var p, t := Percent(u), u.total as real;
      var d := u.used as real;
      ScaleCompare(p, 90.0, t, 100.0 * d);
      ScaleCompare(p, 70.0, t, 100.0 * d);
      assert (10 * u.used) as real == 10.0 * d && (9 * u.total) as real == 9.0 * t;
      assert (7 * u.total) as real == 7.0 * t;
    }
  }
}
