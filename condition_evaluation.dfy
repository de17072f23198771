/**
 * The condition evaluator: the callback returned by `useConditionEvaluation`
 * (src/hooks/useConditionEvaluation.ts), modelled as a standalone pure function.
 *
 * The snapshot's timestamp is abstracted to the local hour and minute it reads; when the
 * snapshot has no timestamp the source reads the wall clock, which here is the `clock` parameter.
 */
module ConditionEvaluation {
  import opened Wrappers
  import opened Nodes

  datatype TimeOfDay = TimeOfDay(hour: int, minute: int)

  /** A market snapshot: the current price, the indicator map and the timestamp, each optional. */
  datatype MarketData = MarketData(price: Option<real>, indicators: map<string, real>, timestamp: Option<TimeOfDay>)

  /** The relational operators applied exactly (no tolerance); an unknown operator never holds. */
  predicate Holds(op: Operator, left: real, right: real) {
    match op
    case Gt => left > right
    case Lt => left < right
    case Eq => left == right
    case Ge => left >= right
    case Le => left <= right
    case UnknownOperator => false
  }

  /** `marketData.indicators?.[name] || 0` */
  function IndicatorValue(m: MarketData, name: string): real {
    if name in m.indicators then m.indicators[name] else 0.0
  }

  /** `marketData.timestamp || new Date()` */
  function Now(m: MarketData, clock: TimeOfDay): TimeOfDay {
    m.timestamp.GetOr(clock)
  }

  /** The value a non-time condition compares against its threshold. */
  function LeftValue(c: ConditionData, m: MarketData): real
    requires c.conditionType.Some?
  {
    match c.conditionType.value
    case PriceCondition => m.price.GetOr(0.0)
    case TechnicalCondition => IndicatorValue(m, c.indicator)
    case _ => 0.0
  }

  /** A complete condition that is decided by comparing a market value with the threshold. */
  predicate IsComparison(c: ConditionData) {
    && ConditionComplete(c)
    && c.conditionType != Some(TimeCondition)
    && !(c.conditionType == Some(TechnicalCondition) && c.indicator == "")
  }

  function EvaluateCondition(c: ConditionData, m: MarketData, clock: TimeOfDay): (r: bool)
    // an incomplete condition fails closed
    ensures !ConditionComplete(c) ==> !r
    // a technical condition without an indicator fails closed
    ensures c.conditionType == Some(TechnicalCondition) && c.indicator == "" ==> !r
    // only the market-open timeframe is implemented; operator and value are ignored
    ensures ConditionComplete(c) && c.conditionType == Some(TimeCondition) ==>
              (r <==> c.timeframe == "market_open" && Now(m, clock).hour == 9 && Now(m, clock).minute >= 30)
    // the left operand per condition type
    ensures IsComparison(c) && c.conditionType == Some(PriceCondition) ==>
              (r <==> Holds(c.operator.value, m.price.GetOr(0.0), c.value.value))
    ensures IsComparison(c) && c.conditionType == Some(TechnicalCondition) ==>
              (r <==> Holds(c.operator.value, IndicatorValue(m, c.indicator), c.value.value))
    ensures IsComparison(c) && c.conditionType.value in {FundamentalCondition, UnknownCondition} ==>
              (r <==> Holds(c.operator.value, 0.0, c.value.value))
    // an unknown operator fails
    ensures IsComparison(c) && c.operator == Some(UnknownOperator) ==> !r
  {
    if !ConditionComplete(c) then false
    else
      match c.conditionType.value
      case TechnicalCondition =>
        if c.indicator == "" then false
        else Holds(c.operator.value, LeftValue(c, m), c.value.value)
      case TimeCondition =>
        if c.timeframe == "market_open" then
          var now := Now(m, clock);
          now.hour == 9 && now.minute >= 30
        else false
      case _ => Holds(c.operator.value, LeftValue(c, m), c.value.value)
  }
}
