/** The logic of `components/SubscriptionForm.tsx`: the initial field
    values, the price derivation that runs whenever the price text or the
    cadence changes, and the submit handler's validation, payload and
    reset. The derived prices are computed at submit time from the fields
    they depend on, which is what the effect has stored by then. */
module SubscriptionForm {
  import opened Wrappers
  import opened Calendar
  import opened Types
  import opened NumberText

  /** The price field's text: what the user typed, or the rendering of a
      stored number (`number.toString()`, never empty, and read back by
      `parseFloat` as the same number). */
  datatype PriceText = Typed(text: string) | Shown(value: real)

  predicate IsEmpty(p: PriceText) {
    p == Typed("")
  }

  /** `parseFloat(priceInput) || 0`. */
  function ParsePrice(p: PriceText): (v: real)
    ensures p.Typed? && ParseFloat(p.text).None? ==> v == 0.0
    ensures p.Typed? && ParseFloat(p.text).Some? ==> v == ParseFloat(p.text).value
    ensures p.Shown? ==> v == p.value
  {
    match p
    case Shown(v) => v
    case Typed(t) =>
      match ParseFloat(t)
      case None => 0.0
      case Some(v) => if v == 0.0 then 0.0 else v
  }

  datatype Prices = Prices(monthly: real, annual: real)

  /** The price-derivation effect: the entered price is the price of the
      selected cadence, the other one is derived from it. */
  function DerivePrices(p: PriceText, duration: Duration): (r: Prices)
    ensures duration == Monthly ==> r.monthly == ParsePrice(p)
    ensures duration == Annually ==> r.annual == ParsePrice(p)
    ensures r.annual == 12.0 * r.monthly
  {
    var price := ParsePrice(p);
    if duration == Monthly then Prices(price, price * 12.0) else Prices(price / 12.0, price)
  }

  /** The form's fields. */
  datatype FormState = FormState(
    name: string,
    bank: string,
    category: string,
    payer: string,
    website: string,
    startDate: ValidDate,
    duration: Duration,
    currency: Currency,
    priceInput: PriceText)

  /** `value || fallback` on a string. */
  function OrElse(value: string, fallback: string): (r: string)
    ensures r == (if value == "" then fallback else value)
  {
    if value != "" then value else fallback
  }

  /** The initial state, from the record being edited if there is one;
      `today` is the current date. */
  function InitialForm(initial: Option<Subscription>, today: ValidDate): (f: FormState)
    ensures initial.None? ==> f == ResetForm(today)
    ensures initial.Some? ==>
              && f.name == initial.value.name
              && f.bank == initial.value.bank
              && f.category == (if initial.value.category == "" then Categories[0] else initial.value.category)
              && f.payer == (if initial.value.payer == "" then Payers[0] else initial.value.payer)
              && f.website == initial.value.website
              && f.startDate == initial.value.startDate
              && f.duration == initial.value.duration
              && f.currency == initial.value.currency
              && f.priceInput == Shown(if initial.value.duration == Monthly then initial.value.monthlyPrice
                                       else initial.value.annualPrice)
  {
    match initial
    case None =>
      FormState("", "", Categories[0], Payers[0], "", today, Monthly, USD, Typed(""))
    case Some(s) =>
      FormState(OrElse(s.name, ""), OrElse(s.bank, ""), OrElse(s.category, Categories[0]),
                OrElse(s.payer, Payers[0]), OrElse(s.website, ""), s.startDate, s.duration,
                s.currency, Shown(if s.duration == Monthly then s.monthlyPrice else s.annualPrice))
  }

  /** The defaults a successful add restores: first category and payer,
      monthly, USD, today, every text empty. */
  function ResetForm(today: ValidDate): (f: FormState)
    ensures f.name == "" && f.bank == "" && f.website == "" && IsEmpty(f.priceInput)
    ensures f.category == "Entertainment" && f.payer == "Personal"
    ensures f.duration == Monthly && f.currency == USD && f.startDate == today
  {
    FormState("", "", Categories[0], Payers[0], "", today, Monthly, USD, Typed(""))
  }

  /** What a submit does: nothing but an alert, or a record handed to the
      parent together with the form's next state. */
  datatype SubmitResult = Rejected | Submitted(draft: Draft, next: FormState)

  /** `handleSubmit`. */
  function HandleSubmit(f: FormState, isEditing: bool, today: ValidDate): (r: SubmitResult)
    ensures r.Rejected? <==> f.name == "" || IsEmpty(f.priceInput)
    ensures r.Submitted? ==>
              && r.draft.name == f.name && r.draft.bank == f.bank
              && r.draft.category == f.category && r.draft.payer == f.payer
              && r.draft.website == f.website && r.draft.startDate == f.startDate
              && r.draft.duration == f.duration && r.draft.currency == f.currency
              && Prices(r.draft.monthlyPrice, r.draft.annualPrice) == DerivePrices(f.priceInput, f.duration)
              && r.draft.lastPaymentDate.None? && r.draft.nextPaymentDate.None?
    ensures r.Submitted? ==> r.next == (if isEditing then f else ResetForm(today))
  {
    if f.name == "" || IsEmpty(f.priceInput) then Rejected
    else
      var prices := DerivePrices(f.priceInput, f.duration);
      var draft := Draft(f.name, f.bank, f.category, f.payer, f.website, f.startDate, f.duration,
                         prices.monthly, prices.annual, f.currency, None, None);
      Submitted(draft, if isEditing then f else ResetForm(today))
  }

  // ---------------------------------------------------------------------
  // Properties

  /** Text that is not a number counts as a price of zero. */
  lemma UnparseablePriceIsZero(t: string)
    requires ParseFloat(t).None?
    ensures DerivePrices(Typed(t), Monthly) == Prices(0.0, 0.0)
    ensures DerivePrices(Typed(t), Annually) == Prices(0.0, 0.0)
  {
  }

  /** A whole number typed as digits is the price of the selected
      cadence. */
  lemma TypedWholePrice(n: nat, duration: Duration)
    ensures duration == Monthly ==> DerivePrices(Typed(NatToDigits(n)), duration) == Prices(n as real, 12.0 * n as real)
    ensures duration == Annually ==> DerivePrices(Typed(NatToDigits(n)), duration) == Prices(n as real / 12.0, n as real)
  {
    ParseNatPrefix(n, "");
    assert NatToDigits(n) + "" == NatToDigits(n);
  }

  /** Submitting an unedited edit form gives back the record being edited,
      id aside, when its prices agree and its text fields are filled in;
      the schedule dates, which the form does not carry, are dropped. */
  lemma EditRoundTrip(s: Subscription, today: ValidDate)
    requires s.name != "" && s.category != "" && s.payer != ""
    requires s.annualPrice == 12.0 * s.monthlyPrice
    ensures HandleSubmit(InitialForm(Some(s), today), true, today)
            == Submitted(s.ToDraft().(lastPaymentDate := None, nextPaymentDate := None),
                         InitialForm(Some(s), today))
  {
  }

  /** A successful add leaves the form as it was first shown. */
  lemma AddResetsToInitial(f: FormState, today: ValidDate)
    requires HandleSubmit(f, false, today).Submitted?
    ensures HandleSubmit(f, false, today).next == InitialForm(None, today)
  {
  }
}
