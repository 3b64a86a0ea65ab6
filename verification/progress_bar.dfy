/** The urgency display of `components/ProgressBar.tsx`: a clamped progress
    percentage over a 31-day window, a bar colour, a text colour and a
    status label, all functions of the whole number of days until payment. */
module ProgressBar {
  import opened DateUtils
  import opened Types
  import opened NumberText

  /** The window the bar spans, in days. */
  const MaxDays: int := 31

  function Clamp(lo: real, hi: real, x: real): real
    requires lo <= hi
  {
    if x < lo then lo else if x > hi then hi else x
  }

  /** `Math.max(0, Math.min(100, ((31 - days) / 31) * 100))`. */
  function Progress(days: int): (p: real)
    ensures 0.0 <= p <= 100.0
    ensures days >= MaxDays ==> p == 0.0
    ensures days <= 0 ==> p == 100.0
    ensures 0 <= days <= MaxDays ==> p * MaxDays as real == (MaxDays - days) as real * 100.0
  {
    Clamp(0.0, 100.0, ((MaxDays - days) as real / MaxDays as real) * 100.0)
  }

  /** `getColorClasses`: the bar's colour band. */
  function ColorClasses(days: int): (t: Tone)
    ensures t == Blue <==> 15 <= days <= 31
    ensures t == Green <==> 10 <= days <= 14
    ensures t == Orange <==> 3 <= days <= 9
    ensures t == Red <==> 0 <= days <= 2
    ensures t == Slate <==> days < 0 || days > 31
  {
    if 15 <= days <= 31 then Blue
    else if 10 <= days <= 14 then Green
    else if 3 <= days <= 9 then Orange
    else if 0 <= days <= 2 then Red
    else Slate
  }

  /** `getTextColor`: the label's colour band, written separately in the
      component with the same thresholds. */
  function TextColor(days: int): (t: Tone)
    ensures t == Blue <==> 15 <= days <= 31
    ensures t == Green <==> 10 <= days <= 14
    ensures t == Orange <==> 3 <= days <= 9
    ensures t == Red <==> 0 <= days <= 2
    ensures t == Slate <==> days < 0 || days > 31
  {
    if days >= 15 && days <= 31 then Blue
    else if days >= 10 && days <= 14 then Green
    else if days >= 3 && days <= 9 then Orange
    else if days >= 0 && days <= 2 then Red
    else Slate
  }

  /** The label beside the bar. */
  datatype Status = Overdue | DueToday | DueTomorrow | DaysLeft(n: int)

  /** `getStatusText`. */
  function GetStatus(days: int): (s: Status)
    ensures s == Overdue <==> days < 0
    ensures s == DueToday <==> days == 0
    ensures s == DueTomorrow <==> days == 1
    ensures s.DaysLeft? <==> days >= 2
    ensures s.DaysLeft? ==> s.n == days
  {
    if days < 0 then Overdue
    else if days == 0 then DueToday
    else if days == 1 then DueTomorrow
    else DaysLeft(days)
  }

  /** The text the label shows. */
  function StatusText(s: Status): string
    requires s.DaysLeft? ==> s.n >= 0
  {
    match s
    case Overdue => "Overdue"
    case DueToday => "Due Today"
    case DueTomorrow => "Due Tomorrow"
    case DaysLeft(n) => NatToDigits(n) + " days left"
  }

  // ---------------------------------------------------------------------
  // Properties

  /** The bar never grows as the payment moves further away. */
  lemma ProgressNonIncreasing(a: int, b: int)
    requires a <= b
    ensures Progress(b) <= Progress(a)
  {
    var x := ((MaxDays - a) as real / MaxDays as real) * 100.0;
    var y := ((MaxDays - b) as real / MaxDays as real) * 100.0;
    assert y <= x;
  }

  /** Bar and text always show the same band. */
  lemma BarAndTextAgree(days: int)
    ensures ColorClasses(days) == TextColor(days)
  {
  }

  /** The bar's bands are the monthly branch of the shared configuration. */
  lemma BandsMatchMonthlyConfig(days: int)
    ensures GetProgressBarConfig(days, Monthly) == ColourPair(ColorClasses(days), TextColor(days))
  {
  }

  /** The label for a day count of two or more reads back as that count. */
  lemma DaysLeftText(days: int)
    requires days >= 2
    ensures StatusText(GetStatus(days)) == NatToDigits(days) + " days left"
    ensures ParseFloat(StatusText(GetStatus(days))) == Wrappers.Some(days as real)
  {
    ParseNatPrefix(days, " days left");
  }
}
