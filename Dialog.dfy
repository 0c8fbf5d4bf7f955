/** The reminder picker (app/.../ui/components/ReminderDialog.kt): a digit-only
    text field, a unit chip, a "delete after" checkbox, and the confirm
    button that turns the input into a duration in milliseconds. */
module Dialog {
  import opened Strings
  import opened Longs

  datatype ReminderUnit = MINUTES | HOURS | DAYS

  /** Milliseconds per unit. */
  function UnitMillis(u: ReminderUnit): nat
  {
    match u
    case MINUTES => 60 * 1000
    case HOURS => 60 * 60 * 1000
    case DAYS => 24 * 60 * 60 * 1000
  }

  function DigitValue(c: char): nat
    requires IsDigit(c)
  {
    DigitOf(c).value
  }

  /** The number a string of decimal digits denotes. */
  function DigitsValue(s: string): nat
    requires AllDigits(s)
  {
    if s == [] then 0 else DigitsValue(s[..|s| - 1]) * 10 + DigitValue(s[|s| - 1])
  }

  /** `String.toLongOrNull()` in radix 10: an optional sign, then at least
      one digit; null when the value does not fit a `Long`. */
  function ParseLong(s: string): (r: Option<int>)
    ensures r.Some? ==> InLong(r.value)
    ensures r.Some? ==> s != [] && (s[0] != '-' ==> r.value >= 0)
  {
    if s == [] then None
    else if s[0] == '-' || s[0] == '+' then
      var body := s[1..];
      if body == [] || !AllDigits(body) then None
      else
        var v: int := if s[0] == '-' then -(DigitsValue(body) as int) else DigitsValue(body);
        if InLong(v) then Some(v) else None
    else if AllDigits(s) && DigitsValue(s) <= MaxLong then Some(DigitsValue(s))
    else None
  }

  /** What the confirm button hands on: the duration, when the input parses
      as a positive `Long`; the unit products wrap like `Long` arithmetic. */
  function ConfirmedMillis(input: string, u: ReminderUnit): (r: Option<int>)
    ensures r.Some? <==> ParseLong(input).Some? && ParseLong(input).value > 0
  {
    match ParseLong(input)
    case None => None
    case Some(v) => if v > 0 then Some(Wrap64(v * UnitMillis(u))) else None
  }

  class ReminderDialogState {
    var inputValue: string
    var selectedUnit: ReminderUnit
    var deleteAfterReminder: bool

    /** The remembered defaults: empty input, HOURS, delete after. */
    constructor()
      ensures inputValue == "" && selectedUnit == HOURS && deleteAfterReminder
    {
      inputValue := "";
      selectedUnit := HOURS;
      deleteAfterReminder := true;
    }

    /** `onValueChange`: only the digits of the new text are kept. */
    method OnValueChange(newValue: string)
      modifies this
      ensures inputValue == KeepDigits(newValue)
      ensures AllDigits(inputValue)
      ensures selectedUnit == old(selectedUnit) && deleteAfterReminder == old(deleteAfterReminder)
    {
      inputValue := KeepDigits(newValue);
    }

    method OnUnitSelected(u: ReminderUnit)
      modifies this
      ensures selectedUnit == u
      ensures inputValue == old(inputValue) && deleteAfterReminder == old(deleteAfterReminder)
    {
      selectedUnit := u;
    }

    method OnDeleteAfterChanged(checked: bool)
      modifies this
      ensures deleteAfterReminder == checked
      ensures inputValue == old(inputValue) && selectedUnit == old(selectedUnit)
    {
      deleteAfterReminder := checked;
    }

    /** The confirm button: nothing unless the input is a positive `Long`;
        otherwise the duration and the checkbox state. */
    method Confirm() returns (r: Option<(int, bool)>)
      ensures r.Some? <==> ConfirmedMillis(inputValue, selectedUnit).Some?
      ensures r.Some? ==> r.value == (ConfirmedMillis(inputValue, selectedUnit).value, deleteAfterReminder)
    {
      var value := ParseLong(inputValue);
      if value.Some? && value.value > 0 {
        var v := value.value;
        var timeInMillis;
        match selectedUnit {
          case MINUTES =>
            timeInMillis := Wrap64(Wrap64(v * 60) * 1000);
            StepwiseMillis(v, MINUTES);
          case HOURS =>
            timeInMillis := Wrap64(Wrap64(Wrap64(v * 60) * 60) * 1000);
            StepwiseMillis(v, HOURS);
          case DAYS =>
            timeInMillis := Wrap64(Wrap64(Wrap64(Wrap64(v * 24) * 60) * 60) * 1000);
            StepwiseMillis(v, DAYS);
        }
        r := Some((timeInMillis, deleteAfterReminder));
      } else {
        r := None;
      }
    }
  }

  // --- properties ----------------------------------------------------------

  /** Wrapping after each factor, as the `Long` products in the dialog do,
      gives the wrapped product by the unit. */
  lemma StepwiseMillis(v: int, u: ReminderUnit)
    ensures u == MINUTES ==> Wrap64(Wrap64(v * 60) * 1000) == Wrap64(v * UnitMillis(u))
    ensures u == HOURS ==> Wrap64(Wrap64(Wrap64(v * 60) * 60) * 1000) == Wrap64(v * UnitMillis(u))
    ensures u == DAYS ==> Wrap64(Wrap64(Wrap64(Wrap64(v * 24) * 60) * 60) * 1000) == Wrap64(v * UnitMillis(u))
  {
    match u {
      case MINUTES =>
        Wrap64Mul(v * 60, 1000);
        assert v * 60 * 1000 == v * 60000;
      case HOURS =>
        Wrap64Mul(v * 60, 60);
        assert v * 60 * 60 == v * 3600;
        Wrap64Mul(v * 3600, 1000);
        assert v * 3600 * 1000 == v * 3600000;
      case DAYS =>
        Wrap64Mul(v * 24, 60);
        assert v * 24 * 60 == v * 1440;
        Wrap64Mul(v * 1440, 60);
        assert v * 1440 * 60 == v * 86400;
        Wrap64Mul(v * 86400, 1000);
        assert v * 86400 * 1000 == v * 86400000;
    }
  }

  lemma {:induction false} DigitsValueOfNatToString(n: nat)
    ensures DigitsValue(NatToString(n)) == n
    decreases n
  {
    var s := NatToString(n);
    if n >= 10 {
      DigitsValueOfNatToString(n / 10);
      assert s[..|s| - 1] == NatToString(n / 10);
    }
  }

  /** `toLongOrNull` reads back the decimal rendering of every non-negative
      `Long`. */
  lemma ParseLongRoundTrip(n: nat)
    requires n <= MaxLong
    ensures ParseLong(NatToString(n)) == Some(n)
  {
    DigitsValueOfNatToString(n);
  }

  /** On the digit-only field, confirm fires exactly for a non-empty input
      whose value is positive and fits a `Long`: empty input, zero and
      overflowing input do nothing. */
  lemma ConfirmGuard(input: string, u: ReminderUnit)
    requires AllDigits(input)
    ensures ConfirmedMillis(input, u).Some? <==> input != [] && 0 < DigitsValue(input) <= MaxLong
  {
  }

  /** The field keeps any decimal digit, not only ASCII ones, and the parse
      reads its value: Arabic-Indic five with HOURS confirms five hours. */
  lemma ConfirmArabicIndicDigit()
    ensures KeepDigits("\U{665}") == "\U{665}"
    ensures ConfirmedMillis("\U{665}", HOURS) == Some(18000000)
  {
    ArabicIndicDigit();
    assert DigitsValue("\U{665}") == DigitsValue([]) * 10 + DigitValue('\U{665}');
  }

  /** For one positive value whose day count fits a `Long`, each unit gives
      the exact product, and minutes < hours < days. */
  lemma UnitsOrdered(v: nat)
    requires 0 < v && v * (24 * 60 * 60 * 1000) <= MaxLong
    ensures var s := NatToString(v);
      && ConfirmedMillis(s, MINUTES) == Some(v * 60000)
      && ConfirmedMillis(s, HOURS) == Some(v * 3600000)
      && ConfirmedMillis(s, DAYS) == Some(v * 86400000)
      && 0 < v * 60000 < v * 3600000 < v * 86400000
  {
    assert UnitMillis(MINUTES) == 60000 && UnitMillis(HOURS) == 3600000 && UnitMillis(DAYS) == 86400000;
    assert v * 3600000 == v * 60000 + v * 3540000;
    assert v * 86400000 == v * 3600000 + v * 82800000;
    RenderedMillis(v, MINUTES);
    RenderedMillis(v, HOURS);
    RenderedMillis(v, DAYS);
  }

  /** The decimal rendering of a positive value confirms its exact product
      when that product fits a `Long`. */
  lemma RenderedMillis(v: nat, u: ReminderUnit)
    requires 0 < v && v * UnitMillis(u) <= MaxLong
    ensures ConfirmedMillis(NatToString(v), u) == Some(v * UnitMillis(u))
  {
    ParseLongRoundTrip(v);
    Wrap64Unique(v * UnitMillis(u), v * UnitMillis(u));
  }

  /** The input "106751991168" with DAYS passes the guard, but its product
      exceeds `Long.MAX_VALUE` and wraps to a negative duration. */
  lemma ConfirmOverflows(v: nat)
    requires v == 106751991168
    ensures ConfirmedMillis(NatToString(v), DAYS) == Some(-9223372036794351616)
  {
    ParseLongRoundTrip(v);
    assert v * 86400000 == 9223372036915200000;
    assert ConfirmedMillis(NatToString(v), DAYS) == Some(Wrap64(9223372036915200000));
    Wrap64Shift(-9223372036794351616, 1);
    assert -9223372036794351616 + 1 * TwoTo64 == 9223372036915200000;
  }

  /** The evidently intended conversion: a positive value whose duration
      would overflow is refused like an unparsable one. */
  function CheckedMillis(input: string, u: ReminderUnit): (r: Option<int>)
    ensures r.Some? ==> r.value > 0 && InLong(r.value)
    ensures r.Some? ==> ParseLong(input).Some? && r.value == ParseLong(input).value * UnitMillis(u)
  {
    match ParseLong(input)
    case None => None
    case Some(v) => if v > 0 && v * UnitMillis(u) <= MaxLong then Some(v * UnitMillis(u)) else None
  }

  /** Where the product fits, the checked conversion agrees with the
      dialog's. */
  lemma CheckedAgrees(input: string, u: ReminderUnit)
    requires CheckedMillis(input, u).Some?
    ensures ConfirmedMillis(input, u) == CheckedMillis(input, u)
  {
  }
}
