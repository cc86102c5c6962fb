/** Group finance preview (finance.ts) in exact arithmetic, and its distance from settlement. */
module Preview {
  import opened Wrappers
  import opened Faults
  import opened Calculations

  datatype PayoutMode = Daily | Cycle

  /** `contribution` is in pesewas; the preview itself computes in cedis with two decimals. */
  datatype PreviewInput = PreviewInput(
    contribution: int, groupSize: int, mode: PayoutMode, days: Option<int>, startDay: int, marginBps: Option<int>)

  datatype ScheduleRow = ScheduleRow(cycle: nat, payoutDay: int)

  datatype GroupPreview = GroupPreview(
    totalCollected: real, serviceMargin: real, payoutAmount: real, adminEarning: real, myTurnEarning: real,
    totalMyTurnEarnings: real, marginBps: int, days: int, endDay: int, schedule: seq<ScheduleRow>)

  /** Math.round(x * 100) / 100: halves go up. */
  function RoundCurrency2(x: real): real {
    (x * 100.0 + 0.5).Floor as real / 100.0
  }

  function Cedis(pesewas: int): real { pesewas as real / 100.0 }

  function PreviewDays(mode: PayoutMode, days: Option<int>): Result<int, Fault> {
    if mode == Daily then Ok(1)
    else if days.None? || days.value < 1 || days.value > 366 then Err(InvalidDays)
    else Ok(days.value)
  }

  function Schedule(startDay: int, days: int, n: nat): seq<ScheduleRow> {
    seq(n, (i: nat) => ScheduleRow(i + 1, startDay + (i + 1) * days))
  }

  /** The margin that the preview accepts for this pool: the chosen one, or the recommended one. */
  function AcceptedMargin(gross: int, chosen: Option<int>): Result<int, Fault> {
    match chosen
    case Some(bps) => ValidateServiceMarginBps(bps, gross)
    case None =>
      match RecommendedMarginBps(gross)
      case Err(e) => Err(e)
      case Ok(bps) => ValidateServiceMarginBps(bps, gross)
  }

  function TotalShown(contribution: int, groupSize: int, days: int): real {
    RoundCurrency2(Cedis(contribution) * groupSize as real * days as real)
  }

  function MarginShown(total: real, bps: int): real {
    RoundCurrency2(total * (bps as real / 100.0) / 100.0)
  }

  /** A whole-percent share of an amount: 0 for the admin, 100 for the platform. */
  function ShareShown(margin: real, percent: int): real {
    RoundCurrency2(margin * percent as real / 100.0)
  }

  function GroupTotalShown(perCycle: real, groupSize: int): real {
    RoundCurrency2(perCycle * groupSize as real)
  }

  function PreviewAmounts(input: PreviewInput, days: int, bps: int): GroupPreview
    requires input.groupSize >= 0
  {
    var total := TotalShown(input.contribution, input.groupSize, days);
    var margin := MarginShown(total, bps);
    var myTurn := ShareShown(margin, 100);
    GroupPreview(total, margin, RoundCurrency2(total - margin), ShareShown(margin, 0), myTurn,
                 GroupTotalShown(myTurn, input.groupSize), bps, days,
                 input.startDay + input.groupSize * days, Schedule(input.startDay, days, input.groupSize))
  }

  function PreviewOf(input: PreviewInput): Result<GroupPreview, Fault> {
    match PreviewDays(input.mode, input.days)
    case Err(e) => Err(e)
    case Ok(days) =>
      if input.contribution <= 0 then Err(InvalidAmount)
      else if input.groupSize < 5 || input.groupSize > 250 then Err(InvalidGroupSize)
      else
        match AcceptedMargin(input.contribution * input.groupSize * days, input.marginBps)
        case Err(e) => Err(e)
        case Ok(bps) => Ok(PreviewAmounts(input, days, bps))
  }

  method ComputeGroupFinancePreview(input: PreviewInput) returns (r: Result<GroupPreview, Fault>)
    ensures r == PreviewOf(input)
  {
    var days: int;
    if input.mode == Daily {
      days := 1;
    } else {
      if input.days.None? {
        return Err(InvalidDays);
      }
      if input.days.value < 1 || input.days.value > 366 {
        return Err(InvalidDays);
      }
      days := input.days.value;
    }
    if input.contribution <= 0 {
      return Err(InvalidAmount);
    }
    if input.groupSize < 5 || input.groupSize > 250 {
      return Err(InvalidGroupSize);
    }
    var rows: seq<ScheduleRow> := [];
    for i := 1 to input.groupSize + 1
      invariant rows == Schedule(input.startDay, days, i - 1)
    {
      rows := rows + [ScheduleRow(i, input.startDay + i * days)];
    }
    var margin := AcceptedMargin(input.contribution * input.groupSize * days, input.marginBps);
    if margin.Err? {
      return Err(margin.error);
    }
    r := Ok(PreviewAmounts(input, days, margin.value).(schedule := rows));
  }

  // ---- Preview against settlement ------------------------------------------------------------

  /** Rounding leaves a whole number of pesewas alone. */
  lemma WholePesewasKept(p: int)
    ensures RoundCurrency2(Cedis(p)) == Cedis(p)
  {
    assert Cedis(p) * 100.0 + 0.5 == p as real + 0.5;
    assert (p as real + 0.5).Floor == p;
  }

  lemma TotalIsGross(c: int, n: int, d: int, gross: int)
    requires gross == c * n * d
    ensures TotalShown(c, n, d) == Cedis(gross)
  {
    assert (c * n) as real == c as real * n as real;
    assert gross as real == (c * n) as real * d as real;
    assert Cedis(c) * n as real * d as real == Cedis(gross);
    WholePesewasKept(gross);
  }

  /** The previewed margin is the half-up rounding of what settlement floors. */
  lemma MarginRoundsHalfUp(gross: int, bps: int)
    requires gross >= 0 && bps >= 0
    ensures MarginShown(Cedis(gross), bps) == Cedis((gross * bps + 5000) / BPS_DENOMINATOR)
  {
    var exact := Cedis(gross) * (bps as real / 100.0) / 100.0;
    var product := gross * bps;
    assert gross as real * bps as real == product as real;
    assert exact * 100.0 == product as real / 10000.0;
    var up := (product + 5000) / 10000;
    assert up * 10000 <= product + 5000 < (up + 1) * 10000;
    assert up as real * 10000.0 <= product as real + 5000.0 < (up + 1) as real * 10000.0;
    assert up as real <= exact * 100.0 + 0.5 < up as real + 1.0;
    assert (exact * 100.0 + 0.5).Floor == up;
  }

  lemma SharesOfMargin(margin: int, n: int)
    ensures ShareShown(Cedis(margin), 0) == Cedis(0)
    ensures ShareShown(Cedis(margin), 100) == Cedis(margin)
    ensures GroupTotalShown(Cedis(margin), n) == Cedis(n * margin)
  {
    WholePesewasKept(0);
    WholePesewasKept(margin);
    assert Cedis(margin) * 100 as real / 100.0 == Cedis(margin);
    assert margin as real * n as real == (n * margin) as real;
    assert Cedis(margin) * n as real == Cedis(n * margin);
    WholePesewasKept(n * margin);
  }

  /** How far the previewed margin lies above the settled one, in pesewas. */
  function RoundingGap(gross: int, bps: int): int {
    if gross * bps % BPS_DENOMINATOR >= 5000 then 1 else 0
  }

  /** Every money field of the preview of a pool of `gross` pesewas. */
  lemma FieldsFromGross(input: PreviewInput, days: int, bps: int, gross: int)
    requires input.groupSize >= 0 && bps >= 0 && gross >= 0
    requires gross == input.contribution * input.groupSize * days
    ensures var p := PreviewAmounts(input, days, bps);
      var shown := gross * bps / BPS_DENOMINATOR + RoundingGap(gross, bps);
      && p.totalCollected == Cedis(gross)
      && p.serviceMargin == Cedis(shown)
      && p.payoutAmount == Cedis(gross - shown)
      && p.adminEarning == Cedis(0)
      && p.totalMyTurnEarnings == Cedis(input.groupSize * shown)
  {
    TotalIsGross(input.contribution, input.groupSize, days, gross);
    MarginRoundsHalfUp(gross, bps);
    var shown := gross * bps / BPS_DENOMINATOR + RoundingGap(gross, bps);
    assert (gross * bps + 5000) / BPS_DENOMINATOR == shown;
    SharesOfMargin(shown, input.groupSize);
    assert Cedis(gross) - Cedis(shown) == Cedis(gross - shown);
    WholePesewasKept(gross - shown);
  }

  lemma AcceptedPreview(input: PreviewInput) returns (gross: int)
    requires PreviewOf(input).Ok?
    ensures var p := PreviewOf(input).value;
      && gross == input.contribution * input.groupSize * p.days > 0
      && p == PreviewAmounts(input, p.days, p.marginBps)
      && 200 <= p.marginBps <= 2000 && p.days >= 1
  {
    var p := PreviewOf(input).value;
    gross := input.contribution * input.groupSize * p.days;
    ProductBound(input.contribution, 1, input.groupSize);
    ProductBound(input.contribution * input.groupSize, 1, p.days);
    TiersAgree(p.marginBps, gross, gross);
  }

  /**
   * For every accepted group the preview shows the settled margin, or exactly one pesewa more and
   * then one pesewa less payout; it is one pesewa exactly when the dropped fraction is at least half.
   * Over the whole group the promised revenue is off by at most one pesewa a cycle.
   */
  lemma PreviewMatchesSettlement(input: PreviewInput)
    requires PreviewOf(input).Ok?
    ensures var p := PreviewOf(input).value;
      var settled := SummarizeCycle(input.contribution, input.groupSize, p.marginBps, p.days);
      && settled.Ok?
      && var gap := RoundingGap(settled.value.gross, p.marginBps);
      && p.totalCollected == Cedis(settled.value.gross)
      && p.serviceMargin == Cedis(settled.value.serviceMargin + gap)
      && p.payoutAmount == Cedis(settled.value.netAfterMargin - gap)
      && p.adminEarning == Cedis(settled.value.adminShare)
      && p.totalMyTurnEarnings == Cedis(input.groupSize * (settled.value.platformShare + gap))
  {
    var p := PreviewOf(input).value;
    var gross := AcceptedPreview(input);
    SummaryConserves(input.contribution, input.groupSize, p.marginBps, p.days);
    FieldsFromGross(input, p.days, p.marginBps, gross);
  }

  /** Payout days are evenly spaced from the start and end on the group's end day. */
  lemma ScheduleEndsTheGroup(input: PreviewInput)
    requires PreviewOf(input).Ok?
    ensures var p := PreviewOf(input).value;
      && |p.schedule| == input.groupSize
      && p.schedule[0].payoutDay == input.startDay + p.days
      && p.schedule[|p.schedule| - 1] == ScheduleRow(input.groupSize, p.endDay)
      && forall i :: 1 <= i < |p.schedule| ==> p.schedule[i].payoutDay - p.schedule[i - 1].payoutDay == p.days
  {
    var p := PreviewOf(input).value;
    forall i | 1 <= i < |p.schedule|
      ensures p.schedule[i].payoutDay - p.schedule[i - 1].payoutDay == p.days
    {
      assert (i + 1) * p.days == i * p.days + p.days;
    }
  }
}
