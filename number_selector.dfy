/**
 * The plus/minus stepper: each button moves the value by one inside
 * `[min, max]` (1 and 99 unless given) and is disabled exactly when its
 * handler would do nothing. `None` means `onChange` is not called.
 */
module NumberSelector {
  import opened Wrappers

  const DefaultMin: real := 1.0
  const DefaultMax: real := 99.0

  /** A prop left out takes its default; a prop that is given is used as it is. */
  function PropOrDefault(prop: Option<real>, default: real): (r: real)
    ensures prop.None? ==> r == default
    ensures prop.Some? ==> r == prop.value
  {
    match prop
    case None => default
    case Some(v) => v
  }

  /** `handleDecrement`: emits one less, only while the value is above `min`. */
  function HandleDecrement(value: real, min: real): (emitted: Option<real>)
    ensures emitted.Some? <==> value > min
    ensures emitted.Some? ==> emitted.value == value - 1.0
  {
    if value > min then Some(value - 1.0) else None
  }

  /** `handleIncrement`: emits one more, only while the value is below `max`. */
  function HandleIncrement(value: real, max: real): (emitted: Option<real>)
    ensures emitted.Some? <==> value < max
    ensures emitted.Some? ==> emitted.value == value + 1.0
  {
    if value < max then Some(value + 1.0) else None
  }

  /** `disabled={value <= min}` on the minus button. */
  predicate DecrementDisabled(value: real, min: real) {
    value <= min
  }

  /** `disabled={value >= max}` on the plus button. */
  predicate IncrementDisabled(value: real, max: real) {
    value >= max
  }

  /** Each button is disabled exactly when its handler would not call `onChange`. */
  lemma DisabledMatchesGuards(value: real, min: real, max: real)
    ensures DecrementDisabled(value, min) <==> HandleDecrement(value, min).None?
    ensures IncrementDisabled(value, max) <==> HandleIncrement(value, max).None?
  {
  }

  predicate IsWhole(x: real) {
    x.Floor as real == x
  }

  /** Starting from a whole value inside whole bounds, every emitted value stays inside them. */
  lemma StepsStayInRange(value: real, min: real, max: real)
    requires IsWhole(value) && IsWhole(min) && IsWhole(max)
    requires min <= value <= max
    ensures HandleDecrement(value, min).Some? ==> min <= HandleDecrement(value, min).value <= max
    ensures HandleIncrement(value, max).Some? ==> min <= HandleIncrement(value, max).value <= max
  {
    var v, lo, hi := value.Floor, min.Floor, max.Floor;
    assert lo <= v <= hi;
  }

  /** A value inside the bounds comes back after a step up then a step down, and after a step down then a step up. */
  lemma StepsUndo(value: real, min: real, max: real)
    requires min <= value <= max
    ensures HandleIncrement(value, max).Some? ==>
      HandleDecrement(HandleIncrement(value, max).value, min) == Some(value)
    ensures HandleDecrement(value, min).Some? ==>
      HandleIncrement(HandleDecrement(value, min).value, max) == Some(value)
  {
  }

  /** With the defaults, a whole value between 1 and 99 never leaves that range. */
  lemma DefaultRange(value: real)
    requires IsWhole(value) && 1.0 <= value <= 99.0
    ensures var min, max := PropOrDefault(None, DefaultMin), PropOrDefault(None, DefaultMax);
      (HandleDecrement(value, min).Some? ==> 1.0 <= HandleDecrement(value, min).value <= 99.0)
      && (HandleIncrement(value, max).Some? ==> 1.0 <= HandleIncrement(value, max).value <= 99.0)
  {
    StepsStayInRange(value, 1.0, 99.0);
  }
}
