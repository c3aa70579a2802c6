/**
 * JRiver's date format: a decimal count of days since midnight, 30 December 1899
 * (pymcws/utils.py `reference_date`, `parse_jriver_date`, `serialize_jriver_date`).
 */
module Dates {
  import opened Wrappers
  import opened Exceptions
  import opened Strings
  import opened Values

  /** `datetime.strptime("30.12.1899", "%d.%m.%Y")`. */
  const ReferenceDate: CivilDate := CivilDate(1899, 12, 30)

  /**
   * `parse_jriver_date`: None stays None; otherwise the text has every ',' turned into '.'
   * (locales that write a decimal comma) and, when `float()` accepts what results, stands for
   * that many days after ReferenceDate; elsewhere `float()` raises ValueError.
   */
  function ParseJRiverDate(text: Option<string>): (r: Outcome<Value>)
    ensures text.None? <==> r == Ok(Null)
    ensures text.Some? ==> (r.Ok? <==> FloatText(ReplaceAll(text.value, ',', ".")))
    ensures r.Err? ==> r.error == ValueError(ReplaceAll(text.value, ',', "."))
    ensures text.Some? && r.Ok? ==> r.value.DaysSince? && r.value.epoch == ReferenceDate
    ensures text.Some? && r.Ok? ==> ',' !in r.value.days && |r.value.days| == |text.value|
    ensures text.Some? && r.Ok? ==> forall i :: 0 <= i < |text.value| ==>
      r.value.days[i] == (if text.value[i] == ',' then '.' else text.value[i])
  {
    match text
    case None => Ok(Null)
    case Some(t) =>
      var days := ReplaceAll(t, ',', ".");
      ReplaceAllChar(t);
      if FloatText(days) then Ok(DaysSince(ReferenceDate, days)) else Err(ValueError(days))
  }

  lemma {:induction false} ReplaceAllChar(t: string)
    ensures |ReplaceAll(t, ',', ".")| == |t|
    ensures forall i :: 0 <= i < |t| ==>
      ReplaceAll(t, ',', ".")[i] == (if t[i] == ',' then '.' else t[i])
  {
    if t != [] {
      ReplaceAllChar(t[1..]);
    }
  }

  /** A day count written with a decimal comma is read as the same count with a point. */
  lemma DecimalCommaDate(whole: string, fraction: string)
    requires |whole| >= 1 && AllDigits(whole) && AllDigits(fraction)
    ensures ParseJRiverDate(Some(whole + "," + fraction)) == Ok(DaysSince(ReferenceDate, whole + "." + fraction))
  {
    var t := whole + "." + fraction;
    ReplaceAllAbsent(whole, ',', ".");
    ReplaceAllAbsent(fraction, ',', ".");
    ReplaceAllAppend(whole, "," + fraction, ',', ".");
    ReplaceAllAppend(",", fraction, ',', ".");
    ReplaceAllSingle(',', ',', ".");
    assert "," + fraction == [','] + fraction;
    assert whole + "," + fraction == whole + ("," + fraction);
    assert whole + "." + fraction == whole + ("." + fraction);
    DigitsDecimalText(whole, fraction);
  }

  /** A day count `float()` rejects, such as a word, is a ValueError and not a date. */
  lemma WordIsNoDate()
    ensures ParseJRiverDate(Some("abc")) == Err(ValueError("abc"))
  {
    FloatTextRejects();
    ReplaceAllAbsent("abc", ',', ".");
  }

  /**
   * `serialize_jriver_date`: None stays None. A datetime becomes the text of its (fractional)
   * day count since ReferenceDate; that rendering of a float is not modelled. Any other
   * value cannot be subtracted from a datetime.
   */
  function SerializeJRiverDate(date: Value): (r: Outcome<Value>)
    ensures date == Null <==> r == Ok(Null)
    ensures (date.DaysSince? || date.Timestamp?) ==> r == Err(NotModelled)
  {
    match date
    case Null => Ok(Null)
    case DaysSince(_, _) => Err(NotModelled)
    case Timestamp(_) => Err(NotModelled)
    case _ => Err(TypeError)
  }
}
