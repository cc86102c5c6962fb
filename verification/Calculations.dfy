/** Settlement arithmetic in pesewas (calculations.ts) and margin tiers (margin-tiers.ts). */
module Calculations {
  import opened Wrappers
  import opened Faults

  const BPS_DENOMINATOR := 10000
  const PLATFORM_MARGIN_SHARE_BPS := 10000

  datatype CycleSummary = CycleSummary(
    gross: int, serviceMargin: int, netAfterMargin: int, adminShare: int, platformShare: int)

  function GrossPoolAmountMinor(perDay: int, members: int, days: int): Result<int, Fault> {
    if members < 0 then Err(InvalidMemberCount)
    else if days < 1 then Err(InvalidDays)
    else if perDay < 0 then Err(InvalidAmount)
    else Ok(perDay * members * days)
  }

  function MarginFromGrossMinor(gross: int, marginBps: int): Result<int, Fault> {
    if gross < 0 then Err(InvalidAmount)
    else if marginBps < 0 || marginBps > BPS_DENOMINATOR then Err(InvalidMargin)
    else Ok(gross * marginBps / BPS_DENOMINATOR)
  }

  function SummarizeCycle(perDay: int, members: int, marginBps: int, days: int): Result<CycleSummary, Fault> {
    match GrossPoolAmountMinor(perDay, members, days)
    case Err(e) => Err(e)
    case Ok(gross) =>
      match MarginFromGrossMinor(gross, marginBps)
      case Err(e) => Err(e)
      case Ok(margin) =>
        if margin < 0 then Err(InvalidAmount)
        else Ok(CycleSummary(gross, margin, gross - margin, 0,
                             margin * PLATFORM_MARGIN_SHARE_BPS / BPS_DENOMINATOR))
  }

  lemma ProductBound(a: int, b: int, c: int)
    requires a >= 0 && 0 <= b <= c
    ensures 0 <= a * b <= a * c
  {
  }

  /** A share taken in basis points lies between nothing and the whole, and is the exact floor. */
  lemma BpsShare(amount: int, bps: int)
    requires amount >= 0 && 0 <= bps <= BPS_DENOMINATOR
    ensures var share := amount * bps / BPS_DENOMINATOR;
      && 0 <= share <= amount
      && share * BPS_DENOMINATOR <= amount * bps < (share + 1) * BPS_DENOMINATOR
      && (bps < BPS_DENOMINATOR && amount > 0 ==> share < amount)
  {
    ProductBound(amount, bps, BPS_DENOMINATOR);
    if bps < BPS_DENOMINATOR && amount > 0 {
      ProductBound(amount, bps, BPS_DENOMINATOR - 1);
    }
  }

  /** The three shares of a cycle use up the gross pool, the admin's is nothing, the platform's is the margin. */
  lemma SummaryConserves(perDay: int, members: int, marginBps: int, days: int)
    ensures SummarizeCycle(perDay, members, marginBps, days).Ok? <==>
      members >= 0 && days >= 1 && perDay >= 0 && 0 <= marginBps <= BPS_DENOMINATOR
    ensures SummarizeCycle(perDay, members, marginBps, days).Ok? ==>
      var s := SummarizeCycle(perDay, members, marginBps, days).value;
      && s.gross == perDay * members * days
      && s.netAfterMargin + s.adminShare + s.platformShare == s.gross
      && s.adminShare == 0 && s.platformShare == s.serviceMargin
      && 0 <= s.serviceMargin <= s.gross
      && (s.serviceMargin > 0 <==> s.gross * marginBps >= BPS_DENOMINATOR)
      && (s.gross > 0 && marginBps < BPS_DENOMINATOR ==> s.netAfterMargin > 0)
  {
    if members >= 0 && days >= 1 && perDay >= 0 && 0 <= marginBps <= BPS_DENOMINATOR {
      ProductBound(perDay, 0, members);
      ProductBound(perDay * members, 0, days);
      BpsShare(perDay * members * days, marginBps);
    }
  }

  // ---- Margin tiers --------------------------------------------------------------------------

  const MIN_SERVICE_MARGIN_BPS := 200
  const RECOMMENDED_SERVICE_MARGIN_BPS := 1000
  const GHS_MINOR_PER_UNIT := 100

  function GetMaxAllowedMarginBps(gross: int): Result<int, Fault> {
    if gross < 0 then Err(InvalidAmount)
    else
      var ghsWhole := gross / GHS_MINOR_PER_UNIT;
      if ghsWhole <= 1000 then Ok(500)
      else if ghsWhole <= 5000 then Ok(1000)
      else if ghsWhole <= 20000 then Ok(1500)
      else Ok(2000)
  }

  function RecommendedMarginBps(gross: int): Result<int, Fault> {
    match GetMaxAllowedMarginBps(gross)
    case Err(e) => Err(e)
    case Ok(most) => Ok(if RECOMMENDED_SERVICE_MARGIN_BPS <= most then RECOMMENDED_SERVICE_MARGIN_BPS else most)
  }

  /** `bps` is already whole here; the source rounds it first. */
  function ClampServiceMarginBps(bps: int, gross: int): Result<int, Fault> {
    match GetMaxAllowedMarginBps(gross)
    case Err(e) => Err(e)
    case Ok(most) =>
      var raised := if bps < MIN_SERVICE_MARGIN_BPS then MIN_SERVICE_MARGIN_BPS else bps;
      Ok(if raised > most then most else raised)
  }

  function ValidateServiceMarginBps(bps: int, gross: int): Result<int, Fault> {
    if bps < MIN_SERVICE_MARGIN_BPS then Err(InvalidMargin)
    else
      match GetMaxAllowedMarginBps(gross)
      case Err(e) => Err(e)
      case Ok(most) => if bps > most || bps > BPS_DENOMINATOR then Err(InvalidMargin) else Ok(bps)
  }

  /**
   * Clamping lands in the accepted range, moves only what validation refuses, and the
   * recommendation is always acceptable; a bigger pool never tightens the range.
   */
  lemma TiersAgree(bps: int, gross: int, bigger: int)
    requires 0 <= gross <= bigger
    ensures var c := ClampServiceMarginBps(bps, gross).value; ValidateServiceMarginBps(c, gross) == Ok(c)
    ensures ValidateServiceMarginBps(bps, gross).Ok? <==> ClampServiceMarginBps(bps, gross) == Ok(bps)
    ensures ValidateServiceMarginBps(RecommendedMarginBps(gross).value, gross).Ok?
    ensures ValidateServiceMarginBps(bps, gross).Ok? ==>
      200 <= bps <= 2000 && ValidateServiceMarginBps(bps, bigger).Ok?
  {
    assert gross / GHS_MINOR_PER_UNIT <= bigger / GHS_MINOR_PER_UNIT;
  }

  /** A pool may be charged 2 to 5 percent, and up to 10, 15, 20 above 1000, 5000, 20000 whole cedis. */
  predicate MayCharge(bps: int, gross: int) {
    && 200 <= bps
    && (bps <= 500 || (bps <= 1000 && gross >= 100100) || (bps <= 1500 && gross >= 500100)
        || (bps <= 2000 && gross >= 2000100))
  }

  /** Validation accepts just that; the recommendation is 10 percent where it may be charged. */
  lemma TierLimits(bps: int, gross: int)
    requires gross >= 0
    ensures ValidateServiceMarginBps(bps, gross) == if MayCharge(bps, gross) then Ok(bps) else Err(InvalidMargin)
    ensures RecommendedMarginBps(gross) == Ok(if gross >= 100100 then 1000 else 500)
  {
    assert gross / GHS_MINOR_PER_UNIT <= 1000 <==> gross < 100100;
    assert gross / GHS_MINOR_PER_UNIT <= 5000 <==> gross < 500100;
    assert gross / GHS_MINOR_PER_UNIT <= 20000 <==> gross < 2000100;
  }
}
