/** The quantity picker: the starting quantity, the effect that pulls the
    quantity back into 1..maximum, and the three ways of changing it (typing,
    the + button and the - button). Each React state update is modelled as the
    function from the rendered quantity to the next one. */
module QuantitySelector {
  import opened Wrappers
  import opened Text

  /** What the picker was opened for; it only changes the button text. */
  datatype SelectorAction = Take | Use | Drop

  function ActionText(a: SelectorAction): string {
    match a
    case Take => "Взять"
    case Use => "Использовать"
    case Drop => "Выбросить"
  }

  /** The quantity lies within the picker's range. */
  predicate InBounds(q: int, max: int) {
    1 <= q <= max
  }

  function Min(a: int, b: int): int {
    if a <= b then a else b
  }

  function Max(a: int, b: int): int {
    if a >= b then a else b
  }

  /** `defaultQuantity || Math.min(1, maxQuantity)`: a missing or zero
      default falls back to `min(1, max)`. Without a default the picker opens
      at 1 whenever the maximum allows it, and out of range otherwise; a
      non-zero default is taken as given, even out of range. */
  function InitialQuantity(defaultQuantity: Option<int>, max: int): (q: int)
    ensures max >= 1 && (defaultQuantity.None? || defaultQuantity.value == 0) ==> q == 1
    ensures defaultQuantity.Some? && defaultQuantity.value != 0 ==> q == defaultQuantity.value
    ensures max < 1 && defaultQuantity.None? ==> !InBounds(q, max)
  {
    if defaultQuantity.Some? && defaultQuantity.value != 0 then defaultQuantity.value else Min(1, max)
  }

  /** One run of the bounds effect. Both tests read the rendered quantity,
      and when both fire the later update (to 1) wins. The effect leaves the
      quantity alone exactly when it is in range. */
  function Correct(q: int, max: int): (r: int)
    ensures r == q <==> InBounds(q, max)
  {
    var afterFirst := if q > max then max else q;
    if q < 1 then 1 else afterFirst
  }

  /** With a maximum of at least 1 one run of the effect brings any quantity
      into range, to the nearer end, and the next run changes nothing. */
  lemma CorrectSettles(q: int, max: int)
    requires max >= 1
    ensures InBounds(Correct(q, max), max)
    ensures q < 1 ==> Correct(q, max) == 1
    ensures q > max ==> Correct(q, max) == max
    ensures Correct(Correct(q, max), max) == Correct(q, max)
  {
  }

  /** With a maximum below 1 no quantity is stable: the effect keeps
      re-setting it, alternating between 1 and the maximum. */
  lemma CorrectOscillatesBelowOne(q: int, max: int)
    requires max < 1
    ensures Correct(q, max) != q
    ensures Correct(1, max) == max && Correct(max, max) == 1
  {
  }

  /** `Math.min(Math.max(1, value), maxQuantity)`. */
  function Clamp(v: int, max: int): int {
    Min(Max(1, v), max)
  }

  /** `handleChange`: a text that `parseInt` reads as a number sets the
      clamped number; any other text is ignored. */
  function HandleChange(q: int, text: string, max: int): (r: int)
    ensures ParseInt(text).None? ==> r == q
    ensures ParseInt(text).Some? && max >= 1 ==> InBounds(r, max)
    ensures ParseInt(text).Some? && InBounds(ParseInt(text).value, max) ==> r == ParseInt(text).value
    ensures ParseInt(text).Some? && ParseInt(text).value < 1 ==> r == Min(1, max)
    ensures ParseInt(text).Some? && ParseInt(text).value > max ==> r == max
  {
    match ParseInt(text)
    case None => q
    case Some(v) => Clamp(v, max)
  }

  /** Typing an in-range number into the box selects exactly that number. */
  lemma TypedNumberIsSelected(q: int, n: int, max: int)
    requires InBounds(n, max)
    ensures HandleChange(q, IntToString(n), max) == n
  {
    ParseIntToString(n, "");
    assert IntToString(n) + "" == IntToString(n);
  }

  /** `handleIncrement`: one more, unless already at the maximum. */
  function Increment(q: int, max: int): (r: int)
    ensures InBounds(q, max) ==> InBounds(r, max)
    ensures q < max ==> r == q + 1
    ensures q >= max ==> r == q
  {
    if q < max then q + 1 else q
  }

  /** `handleDecrement`: one fewer, unless already at 1. */
  function Decrement(q: int): (r: int)
    ensures forall max :: InBounds(q, max) ==> InBounds(r, max)
    ensures q > 1 ==> r == q - 1
    ensures q <= 1 ==> r == q
  {
    if q > 1 then q - 1 else q
  }

  /** The buttons undo each other away from the ends of the range. */
  lemma IncrementDecrementInverse(q: int, max: int)
    ensures 1 <= q < max ==> Decrement(Increment(q, max)) == q
    ensures 1 < q <= max ==> Increment(Decrement(q), max) == q
  {
  }

  /** Something the user or React can do to the picker. */
  datatype Event = Plus | Minus | Typed(text: string) | Effect

  function Step(q: int, max: int, e: Event): int {
    match e
    case Plus => Increment(q, max)
    case Minus => Decrement(q)
    case Typed(text) => HandleChange(q, text, max)
    case Effect => Correct(q, max)
  }

  /** The quantity after a sequence of events. */
  function Run(q: int, max: int, events: seq<Event>): int
    decreases |events|
  {
    if |events| == 0 then q else Run(Step(q, max, events[0]), max, events[1..])
  }

  /** Once in range, the quantity stays in range whatever happens next. */
  lemma {:induction false} RunStaysInBounds(q: int, max: int, events: seq<Event>)
    requires InBounds(q, max)
    ensures InBounds(Run(q, max, events), max)
    decreases |events|
  {
    if |events| > 0 {
      var next := Step(q, max, events[0]);
      if events[0].Typed? {
        assert InBounds(next, max);
      }
      RunStaysInBounds(next, max, events[1..]);
    }
  }

  /** With a maximum of at least 1, the quantity is in range after the first
      effect run, whatever the default, and stays in range from then on. */
  lemma OpenedPickerStaysInBounds(defaultQuantity: Option<int>, max: int, events: seq<Event>)
    requires max >= 1
    ensures InBounds(Run(InitialQuantity(defaultQuantity, max), max, [Effect] + events), max)
  {
    var q0 := InitialQuantity(defaultQuantity, max);
    CorrectSettles(q0, max);
    assert ([Effect] + events)[1..] == events;
    RunStaysInBounds(Correct(q0, max), max, events);
  }
}
