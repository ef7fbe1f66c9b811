/** Query-string parameters as the handlers read them. */
module Params {
  import opened Wrappers

  /** `parseInt` of a query parameter: absent, not a number, or an integer. */
  datatype NumParam = Absent | NaN | Int(value: int)

  /** `parseInt(x) || fallback`: absent, NaN and 0 all fall back. */
  function OrFallback(p: NumParam, fallback: int): (v: int)
    ensures v == fallback || (p.Int? && v == p.value != 0)
    ensures p.Int? && p.value != 0 ==> v == p.value
  {
    if p.Int? && p.value != 0 then p.value else fallback
  }

  /**
   * `parseInt(x = fallback)`: only an absent parameter takes the default;
   * None stands for NaN.
   */
  function OrDefault(p: NumParam, fallback: int): (v: Option<int>)
    ensures v.None? <==> p.NaN?
    ensures p.Absent? ==> v == Some(fallback)
    ensures p.Int? ==> v == Some(p.value)
  {
    match p
    case Absent => Some(fallback)
    case NaN => None
    case Int(n) => Some(n)
  }

  /**
   * The `take` and `skip` of a listing: `parseInt(limit = 10)` and
   * `(parseInt(page = 1) - 1) * take`; None when either is NaN.
   */
  function Offsets(page: NumParam, limit: NumParam): (o: Option<(int, int)>)
    ensures o.None? <==> page.NaN? || limit.NaN?
    ensures o.Some? ==>
      o.value.1 == OrDefault(limit, 10).value && o.value.0 == (OrDefault(page, 1).value - 1) * o.value.1
  {
    match (OrDefault(page, 1), OrDefault(limit, 10))
    case (Some(p), Some(take)) => Some(((p - 1) * take, take))
    case _ => None
  }

  /** A query string value is truthy when present and not empty. */
  predicate Given(o: Option<string>) {
    o.Some? && o.value != ""
  }
}
