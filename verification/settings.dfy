/**
 * The ranking-visibility settings: the clamp applied to every visibility
 * limit sent to the server, the "-" and "+" buttons, the number field, and
 * the default limit that choosing "partial" brings along.
 */
module Settings {
  import opened Wrappers
  import opened Text
  import opened Js

  /** `Math.min(Math.max(1, limit), 99)`. */
  function Clamp(limit: int): (r: int)
    ensures 1 <= r <= 99
    ensures 1 <= limit <= 99 ==> r == limit
    ensures limit < 1 ==> r == 1
    ensures limit > 99 ==> r == 99
  {
    if limit < 1 then 1 else if limit > 99 then 99 else limit
  }

  /** Clamping twice is clamping once, and the clamp keeps the order of its inputs. */
  lemma ClampIdempotentMonotone(a: int, b: int)
    ensures Clamp(Clamp(a)) == Clamp(a)
    ensures a <= b ==> Clamp(a) <= Clamp(b)
  {
  }

  /**
   * `updateVisibilityLimit`: the limit it sends. `None` stands for `NaN`,
   * which both `Math.max` and `Math.min` pass through.
   */
  function SentLimit(limit: Option<int>): (r: Option<int>)
    ensures r.Some? <==> limit.Some?
    ensures r.Some? ==> 1 <= r.value <= 99
    ensures r.Some? && 1 <= limit.value <= 99 ==> r.value == limit.value
  {
    match limit
    case None => None
    case Some(n) => Some(Clamp(n))
  }

  /** The "-" button: the current limit, or 10 when it is unset or 0, minus one. */
  function Decrement(current: Option<int>): (r: int)
    ensures 1 <= r <= 99
  {
    Clamp(Or(current, 10) - 1)
  }

  /** The "+" button: the current limit, or 10 when it is unset or 0, plus one. */
  function Increment(current: Option<int>): (r: int)
    ensures 1 <= r <= 99
  {
    Clamp(Or(current, 10) + 1)
  }

  /**
   * The buttons move the limit by one inside [1, 99], saturate at the ends,
   * undo each other away from the ends, and start from 10 when no limit is set.
   */
  lemma ButtonsStep(c: int)
    requires 1 <= c <= 99
    ensures Increment(Some(c)) == if c < 99 then c + 1 else 99
    ensures Decrement(Some(c)) == if c > 1 then c - 1 else 1
    ensures c < 99 ==> Decrement(Some(Increment(Some(c)))) == c
    ensures c > 1 ==> Increment(Some(Decrement(Some(c)))) == c
    ensures Increment(None) == 11 && Decrement(None) == 9
  {
  }

  /** The number field: an empty field means 1, anything else is read by `parseInt`. */
  function FieldLimit(value: string): (r: Option<int>)
    ensures value == "" ==> r == Some(1)
    ensures value != "" ==> r == ParseInt(value)
  {
    if value == "" then Some(1) else ParseInt(value)
  }

  /** Typing a limit in range sends exactly that limit. */
  lemma FieldSendsTypedLimit(n: nat)
    requires 1 <= n <= 99
    ensures SentLimit(FieldLimit(NatToString(n))) == Some(n)
  {
    ParseNatDigits(n);
  }

  datatype Visibility = Private | Public | Partial

  /** The body sent when a visibility is chosen. */
  datatype VisibilityUpdate = VisibilityUpdate(visibility: Visibility, limit: Option<int>)

  /** Choosing a visibility: "partial" without a (truthy) limit also sets the limit to 10. */
  function ChooseVisibility(v: Visibility, currentLimit: Option<int>): (r: VisibilityUpdate)
    ensures r.visibility == v
    ensures r.limit.Some? <==> v == Partial && !Truthy(currentLimit)
    ensures r.limit.Some? ==> r.limit.value == 10
  {
    VisibilityUpdate(v, if v == Partial && !Truthy(currentLimit) then Some(10) else None)
  }

  /** The limit the user has after the server applies an update (absent fields are kept). */
  function LimitAfter(u: VisibilityUpdate, currentLimit: Option<int>): Option<int> {
    if u.limit.Some? then u.limit else currentLimit
  }

  /** After choosing "partial" the user always has a limit, and an existing one is kept. */
  lemma PartialAlwaysHasLimit(currentLimit: Option<int>)
    ensures Truthy(LimitAfter(ChooseVisibility(Partial, currentLimit), currentLimit))
    ensures Truthy(currentLimit) ==> LimitAfter(ChooseVisibility(Partial, currentLimit), currentLimit) == currentLimit
  {
  }
}
