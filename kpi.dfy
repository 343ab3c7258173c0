/** The change badge of a KPI card: its colour class, its arrow and its text,
    decided by the sign of the month-over-month change. For a KPI where lower
    is better (`inverse`), a rise is shown as bad. */
module Kpi {
  import opened Clinic

  datatype DeltaClass = Positive | Negative

  /** `"0%"`, the magnitude formatted to one decimal, or the text of a NaN. */
  datatype DeltaText = ZeroPercent | Magnitude(amount: real) | NotANumber

  datatype DeltaView = DeltaView(cls: DeltaClass, arrow: string, text: DeltaText)

  const Down: string := "↓"
  const Up: string := "↑"

  function Abs(x: real): real {
    if x < 0.0 then -x else x
  }

  /** The badge of a defined change. */
  function KpiDelta(delta: real, inverse: bool): (v: DeltaView)
    ensures v.cls == Negative <==> (delta < 0.0 && !inverse) || (delta > 0.0 && inverse)
    ensures v.arrow == Down <==> delta < 0.0
    ensures v.arrow == Up <==> delta >= 0.0
    ensures v.text == ZeroPercent <==> delta == 0.0
    ensures v.text.Magnitude? ==> v.text.amount > 0.0 && (v.text.amount == delta || v.text.amount == -delta)
    ensures !v.text.NotANumber?
  {
    DeltaView(
      if (delta < 0.0 && !inverse) || (delta > 0.0 && inverse) then Negative else Positive,
      if delta < 0.0 then Down else Up,
      if delta != 0.0 then Magnitude(Abs(delta)) else ZeroPercent)
  }

  /** The badge of a change that may be NaN (None): every comparison with NaN
      is false, so it is shown as a positive, rising change. */
  function KpiDeltaOf(delta: Option<real>, inverse: bool): (v: DeltaView)
    ensures delta.Some? ==> v == KpiDelta(delta.value, inverse)
    ensures delta.None? ==> v.cls == Positive && v.arrow == Up && v.text == NotANumber
  {
    match delta
    case Some(d) => KpiDelta(d, inverse)
    case None => DeltaView(Positive, Up, NotANumber)
  }

  /** Inverting a card flips its class for every non-zero change, and leaves
      the arrow and the text alone. */
  lemma InverseFlipsClass(delta: real)
    requires delta != 0.0
    ensures KpiDelta(delta, true).cls != KpiDelta(delta, false).cls
    ensures KpiDelta(delta, true).arrow == KpiDelta(delta, false).arrow
    ensures KpiDelta(delta, true).text == KpiDelta(delta, false).text
  {
  }

  /** A zero change is positive, rising and "0%" whichever way the card reads. */
  lemma ZeroDeltaNeutral(inverse: bool)
    ensures KpiDelta(0.0, inverse) == DeltaView(Positive, Up, ZeroPercent)
  {
  }

  /** Opposite changes have opposite arrows and the same text. */
  lemma OppositeDeltas(delta: real, inverse: bool)
    requires delta != 0.0
    ensures KpiDelta(delta, inverse).arrow != KpiDelta(-delta, inverse).arrow
    ensures KpiDelta(delta, inverse).cls != KpiDelta(-delta, inverse).cls
    ensures KpiDelta(delta, inverse).text == KpiDelta(-delta, inverse).text
  {
  }
}
