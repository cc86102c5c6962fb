/** Contribution guarantee reserve arithmetic (contribution-reserve.ts) and what its schedule promises. */
module ReserveMath {
  import opened Wrappers
  import opened Faults
  import opened Calculations

  /** Environment settings; nothing bounds the minimum. */
  datatype ReserveConfig = ReserveConfig(enabled: bool, maxBps: int, minBps: int)

  function ComputeReserveBps(position: int, total: int, maxBps: int, minBps: int): Result<int, Fault> {
    if total < 1 || position < 1 || position > total then Err(InvalidPosition)
    else if maxBps < 0 || maxBps > BPS_DENOMINATOR then Err(InvalidReserveConfig)
    else if position >= total then Ok(0)
    else
      var raw := maxBps * (total - position) / total;
      var capped := if raw < maxBps then raw else maxBps;
      Ok(if minBps > capped then minBps else capped)
  }

  function ComputeReserveAmountMinor(net: int, bps: int): Result<int, Fault> {
    if net < 0 then Err(InvalidAmount)
    else if bps <= 0 then Ok(0)
    else Ok(net * bps / BPS_DENOMINATOR)
  }

  function ComputeReleasePerUnitMinor(original: int, units: int): int {
    if units < 1 then 0 else original / units
  }

  /** The last unit takes whatever is left; the others a fixed floor share, not capped at what is left. */
  function NextReserveReleaseMinor(original: int, remaining: int, units: int, unitsReleased: int): int {
    if remaining <= 0 || units < 1 then 0
    else if unitsReleased + 1 >= units then remaining
    else ComputeReleasePerUnitMinor(original, units)
  }

  function PostPayoutContributionUnits(position: int, total: int, unitsPerCycle: int): Result<nat, Fault> {
    if unitsPerCycle < 1 then Err(InvalidDays)
    else if total < 1 then Ok(0)
    else
      var cyclesLeft := if total > position then total - position else 0;
      ProductBound(cyclesLeft, 0, unitsPerCycle);
      Ok(cyclesLeft * unitsPerCycle)
  }

  datatype Split = Split(bps: int, reserve: int, available: int, units: nat)

  function ComputeSplit(cfg: ReserveConfig, net: int, position: int, total: int, unitsPerCycle: int)
    : Result<Split, Fault>
  {
    match PostPayoutContributionUnits(position, total, unitsPerCycle)
    case Err(e) => Err(e)
    case Ok(units) =>
      if !cfg.enabled then Ok(Split(0, 0, net, units))
      else
        match ComputeReserveBps(position, total, cfg.maxBps, cfg.minBps)
        case Err(e) => Err(e)
        case Ok(bps) =>
          match ComputeReserveAmountMinor(net, bps)
          case Err(e) => Err(e)
          case Ok(reserve) => Ok(Split(bps, reserve, net - reserve, units))
  }

  // ---- Division facts ------------------------------------------------------------------------

  lemma DivBounds(x: int, y: int)
    requires y > 0
    ensures x / y * y <= x < x / y * y + y
  {
    assert x == x / y * y + x % y;
  }

  lemma QuotientAtMost(x: int, y: int, q: int)
    requires y > 0 && x < (q + 1) * y
    ensures x / y <= q
  {
    DivBounds(x, y);
    MulCancelStrict(x / y, q + 1, y);
  }

  lemma MulCancelStrict(a: int, b: int, c: int)
    requires c > 0 && a * c < b * c
    ensures a < b
  {
    if a >= b {
      MulOrder(b, a, c);
    }
  }

  lemma MulOrder(a: int, b: int, c: int)
    requires a <= b && c >= 0
    ensures a * c <= b * c
  {
    assert b * c - a * c == (b - a) * c;
  }

  lemma DivOrder(x: int, y: int, d: int)
    requires d > 0 && x <= y
    ensures x / d <= y / d
  {
    DivBounds(x, d);
    DivBounds(y, d);
    assert (y / d + 1) * d == y / d * d + d;
    MulCancelStrict(x / d, y / d + 1, d);
  }

  // ---- The schedule --------------------------------------------------------------------------

  /** The declining share at a position, before minimum and cap. */
  lemma RawShareFalls(p: int, q: int, total: int, maxBps: int)
    requires 1 <= p <= q <= total && maxBps >= 0
    ensures 0 <= maxBps * (total - q) / total <= maxBps * (total - p) / total
  {
    ProductBound(maxBps, total - q, total - p);
    DivOrder(maxBps * (total - q), maxBps * (total - p), total);
    DivOrder(0, maxBps * (total - q), total);
  }

  /** Later positions hold back no more than earlier ones, and the last holds back nothing. */
  lemma ReserveFallsWithPosition(p: int, q: int, total: int, maxBps: int, minBps: int)
    requires 1 <= p <= q <= total && 0 <= maxBps <= BPS_DENOMINATOR
    ensures var early, late := ComputeReserveBps(p, total, maxBps, minBps), ComputeReserveBps(q, total, maxBps, minBps);
      && early.Ok? && late.Ok?
      && 0 <= late.value <= early.value
      && (q == total ==> late.value == 0)
      && (minBps <= maxBps ==> early.value <= maxBps)
  {
    RawShareFalls(p, q, total, maxBps);
  }

  /** The split is exact; below a full minimum the recipient always keeps something. */
  lemma SplitConserves(cfg: ReserveConfig, net: int, position: int, total: int, unitsPerCycle: int)
    requires net >= 0 && 1 <= position <= total && unitsPerCycle >= 1
    ensures var r := ComputeSplit(cfg, net, position, total, unitsPerCycle);
      && (r.Ok? <==> !cfg.enabled || 0 <= cfg.maxBps <= BPS_DENOMINATOR)
      && (r.Ok? ==>
            && r.value.reserve + r.value.available == net
            && r.value.reserve >= 0
            && r.value.units == (total - position) * unitsPerCycle
            && (position == total || !cfg.enabled ==> r.value.reserve == 0)
            && (cfg.minBps <= BPS_DENOMINATOR ==> r.value.available >= 0)
            && (cfg.minBps < BPS_DENOMINATOR && net > 0 ==> r.value.available > 0))
  {
    if cfg.enabled && 0 <= cfg.maxBps <= BPS_DENOMINATOR {
      ReserveFallsWithPosition(position, total, total, cfg.maxBps, cfg.minBps);
      var bps := ComputeReserveBps(position, total, cfg.maxBps, cfg.minBps).value;
      ProductBound(net, 0, bps);
      if cfg.minBps <= BPS_DENOMINATOR {
        StaysBelowFull(position, total, cfg);
        BpsShare(net, bps);
      }
    }
  }

  /** The declining share never exceeds the maximum, so the cap on it is never reached. */
  lemma ShareBelowMax(position: int, total: int, maxBps: int)
    requires 1 <= position <= total && maxBps >= 0
    ensures maxBps * (total - position) / total <= maxBps
  {
    var left := maxBps * (total - position);
    ProductBound(maxBps, total - position, total);
    DivBounds(left, total);
    if left / total > maxBps { MulOrder(maxBps + 1, left / total, total); }
  }

  /** Before the last position: the declining share in whole basis points, or the minimum where that is more. */
  lemma RateExactly(position: int, total: int, maxBps: int, minBps: int)
    requires 1 <= position <= total && 0 <= maxBps <= BPS_DENOMINATOR
    ensures var r := ComputeReserveBps(position, total, maxBps, minBps);
      && r.Ok? && r.value >= 0 && (position == total ==> r.value == 0)
      && (position < total ==>
            && r.value >= minBps && maxBps * (total - position) < (r.value + 1) * total
            && (r.value == minBps || r.value * total <= maxBps * (total - position)))
  {
    ReserveFallsWithPosition(position, total, total, maxBps, minBps);
    ShareBelowMax(position, total, maxBps);
    if position < total {
      var left, rate := maxBps * (total - position), ComputeReserveBps(position, total, maxBps, minBps).value;
      DivBounds(left, total);
      assert left < (left / total + 1) * total;
      MulOrder(left / total + 1, rate + 1, total);
    }
  }

  /** What is held back is that rate of the net in whole pesewas, the rest is paid out. */
  lemma SplitExactly(cfg: ReserveConfig, net: int, position: int, total: int, unitsPerCycle: int)
    requires net >= 0 && 1 <= position <= total && unitsPerCycle >= 1
    requires cfg.enabled && 0 <= cfg.maxBps <= BPS_DENOMINATOR
    ensures var r := ComputeSplit(cfg, net, position, total, unitsPerCycle);
      && r.Ok? && Ok(r.value.bps) == ComputeReserveBps(position, total, cfg.maxBps, cfg.minBps)
      && r.value.available == net - r.value.reserve
      && r.value.reserve * BPS_DENOMINATOR <= net * r.value.bps < (r.value.reserve + 1) * BPS_DENOMINATOR
  {
    hide ComputeReserveBps;
    RateExactly(position, total, cfg.maxBps, cfg.minBps);
    SplitConserves(cfg, net, position, total, unitsPerCycle);
    DivBounds(net * ComputeReserveBps(position, total, cfg.maxBps, cfg.minBps).value, BPS_DENOMINATOR);
  }

  lemma StaysBelowFull(position: int, total: int, cfg: ReserveConfig)
    requires 1 <= position <= total && 0 <= cfg.maxBps <= BPS_DENOMINATOR && cfg.minBps <= BPS_DENOMINATOR
    ensures var bps := ComputeReserveBps(position, total, cfg.maxBps, cfg.minBps).value;
      && 0 <= bps <= BPS_DENOMINATOR && (cfg.minBps < BPS_DENOMINATOR ==> bps < BPS_DENOMINATOR)
  {
    ReserveFallsWithPosition(position, total, total, cfg.maxBps, cfg.minBps);
    if position < total {
      var left := cfg.maxBps * (total - position);
      MulOrder(cfg.maxBps, BPS_DENOMINATOR, total - position);
      assert left < BPS_DENOMINATOR * total;
      DivBounds(left, total);
      if left / total >= BPS_DENOMINATOR {
        MulOrder(BPS_DENOMINATOR, left / total, total);
      }
    }
  }

  /**
   * With no minimum, one unit never unlocks more than net * maxBps / (10000 * total * unitsPerCycle),
   * the same ceiling at every position: early recipients wait longer, not for larger instalments.
   */
  lemma UnitCeiling(net: int, position: int, total: int, maxBps: int, unitsPerCycle: int)
    requires net >= 0 && 1 <= position < total && unitsPerCycle >= 1 && 0 <= maxBps <= BPS_DENOMINATOR
    ensures var s := ComputeSplit(ReserveConfig(true, maxBps, 0), net, position, total, unitsPerCycle).value;
      ComputeReleasePerUnitMinor(s.reserve, s.units) * (BPS_DENOMINATOR * total * unitsPerCycle) <= net * maxBps
  {
    var cfg := ReserveConfig(true, maxBps, 0);
    SplitConserves(cfg, net, position, total, unitsPerCycle);
    ReserveFallsWithPosition(position, total, total, maxBps, 0);
    var s := ComputeSplit(cfg, net, position, total, unitsPerCycle).value;
    var left := total - position;
    MulOrder(1, left, unitsPerCycle);
    UnitCeilingArithmetic(net, maxBps, total, left, unitsPerCycle, s.bps, s.reserve,
                          ComputeReleasePerUnitMinor(s.reserve, s.units));
  }

  lemma MulCancel(a: int, b: int, c: int)
    requires c > 0 && a * c <= b * c
    ensures a <= b
  {
    if a > b {
      MulOrder(b + 1, a, c);
    }
  }

  lemma UnitCeilingArithmetic(net: int, maxBps: int, total: int, left: int, d: int, bps: int, reserve: int, unit: int)
    requires net >= 0 && maxBps >= 0 && total > 0 && left > 0 && d > 0
    requires left * d > 0 && unit == reserve / (left * d)
    requires reserve == if bps <= 0 then 0 else net * bps / BPS_DENOMINATOR
    requires bps >= 0 && bps <= maxBps * left / total
    ensures unit * (BPS_DENOMINATOR * total * d) <= net * maxBps
  {
    var held := unit * (left * d);
    assert held <= reserve by { DivBounds(reserve, left * d); }
    assert reserve * BPS_DENOMINATOR <= net * bps by { DivBounds(net * bps, BPS_DENOMINATOR); }
    assert bps * total <= maxBps * left by {
      DivBounds(maxBps * left, total);
      MulOrder(bps, maxBps * left / total, total);
    }
    Rearranged(net, maxBps, total, left, d, bps, unit, held);
  }

  lemma Rearranged(net: int, maxBps: int, total: int, left: int, d: int, bps: int, unit: int, held: int)
    requires net >= 0 && total > 0 && left > 0
    requires held == unit * (left * d)
    requires held * BPS_DENOMINATOR <= net * bps
    requires bps * total <= maxBps * left
    ensures unit * (BPS_DENOMINATOR * total * d) <= net * maxBps
  {
    MulOrder(held * BPS_DENOMINATOR, net * bps, total);
    MulOrder(bps * total, maxBps * left, net);
    assert net * bps * total == bps * total * net by { Swap(net, bps, total); }
    assert maxBps * left * net == net * maxBps * left by { Swap(maxBps, left, net); Swap(net, maxBps, left); }
    assert held * BPS_DENOMINATOR * total == unit * (BPS_DENOMINATOR * total * d) * left by {
      Regroup(unit, left, d, total);
    }
    MulCancel(unit * (BPS_DENOMINATOR * total * d), net * maxBps, left);
  }

  lemma Swap(a: int, b: int, c: int)
    ensures a * b * c == b * c * a
  {
  }

  lemma Regroup(u: int, l: int, d: int, t: int)
    ensures u * (l * d) * BPS_DENOMINATOR * t == u * (BPS_DENOMINATOR * t * d) * l
  {
    assert u * (l * d) * t == u * (t * d) * l;
    assert u * (BPS_DENOMINATOR * t * d) == BPS_DENOMINATOR * (u * (t * d));
  }

  /** What is left after `j` unit releases with no default cover in between. */
  function AfterReleases(original: int, units: nat, j: nat): int {
    if j == 0 then original
    else
      var left := AfterReleases(original, units, j - 1);
      left - NextReserveReleaseMinor(original, left, units, j - 1)
  }

  /** After `j` equal parts of `unit` at least another part is left, and the last one is short by less than `units`. */
  lemma PartsLeft(original: int, units: int, unit: int, j: int)
    requires 0 <= j < units && unit >= 1 && unit * units <= original < unit * units + units
    ensures original - j * unit >= unit
    ensures j + 1 == units ==> 0 <= original - j * unit - unit < units
  {
    MulOrder(j + 1, units, unit);
    assert (j + 1) * unit == j * unit + unit;
    if j + 1 == units {
      assert units * unit == unit * units;
    }
  }

  lemma UnitAtLeastOne(original: int, units: int)
    requires 1 <= units <= original
    ensures original / units >= 1
  {
    DivBounds(original, units);
    if original / units < 1 {
      MulOrder(original / units, 0, units);
    }
  }

  /** Equal instalments, none larger than what is left, until the last unit clears the row. */
  lemma {:induction false} ReleasesDrain(original: int, units: nat, j: nat)
    requires 1 <= units <= original && j <= units
    ensures AfterReleases(original, units, j) == if j < units then original - j * (original / units) else 0
    ensures j < units ==> AfterReleases(original, units, j) >= original / units >= 1
    ensures j + 1 == units ==>
      0 <= AfterReleases(original, units, j) - original / units < units
  {
    var unit := original / units;
    DivBounds(original, units);
    UnitAtLeastOne(original, units);
    if j > 0 {
      ReleasesDrain(original, units, j - 1);
      assert j * unit == (j - 1) * unit + unit;
    }
    if j < units {
      PartsLeft(original, units, unit, j);
    }
  }

  /** With fewer pesewas than units nothing unlocks until the single last unit. */
  lemma SmallReserveWaits(original: int, units: nat, j: nat)
    requires 0 < original < units && 1 < units
    ensures NextReserveReleaseMinor(original, original, units, j) == if j + 1 >= units then original else 0
  {
    QuotientAtMost(original, units, 0);
    DivOrder(0, original, units);
  }

  /** A cover can leave less than one instalment: the next release then exceeds what is left. */
  lemma ReleaseCanExceedRemaining()
    ensures NextReserveReleaseMinor(100, 5, 10, 2) == 10
  {
  }
}
