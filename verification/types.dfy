/** The records and enumerations of `types.ts` and the option lists of
    `constants.ts`. */
module Types {
  import opened Wrappers
  import opened Calendar

  /** The billing cadence. */
  datatype Duration = Monthly | Annually

  /** The three supported currencies. */
  datatype Currency = USD | EUR | TRY

  const Categories: seq<string> :=
    ["Entertainment", "Software", "Work", "Utilities", "Health", "Finance", "Shopping", "Other"]

  const Payers: seq<string> := ["Personal", "Partner", "Shared", "Company"]

  /** The enum's string value, which is also the key of a rate table. */
  function CurrencyCode(c: Currency): string {
    match c
    case USD => "USD"
    case EUR => "EUR"
    case TRY => "TRY"
  }

  /** A subscription without its id: what the form submits
      (`Omit<Subscription, 'id'>`). The two schedule dates are optional
      because the record type does not declare them and the form never
      sets them. */
  datatype Draft = Draft(
    name: string,
    bank: string,
    category: string,
    payer: string,
    website: string,
    startDate: ValidDate,
    duration: Duration,
    monthlyPrice: real,
    annualPrice: real,
    currency: Currency,
    lastPaymentDate: Option<ValidDate>,
    nextPaymentDate: Option<ValidDate>)

  /** The persisted entity. */
  datatype Subscription = Subscription(
    id: string,
    name: string,
    bank: string,
    category: string,
    payer: string,
    website: string,
    startDate: ValidDate,
    duration: Duration,
    monthlyPrice: real,
    annualPrice: real,
    currency: Currency,
    lastPaymentDate: Option<ValidDate>,
    nextPaymentDate: Option<ValidDate>)
  {
    /** Everything but the id. */
    function ToDraft(): Draft {
      Draft(name, bank, category, payer, website, startDate, duration,
            monthlyPrice, annualPrice, currency, lastPaymentDate, nextPaymentDate)
    }
  }

  /** `{ ...draft, id }`. */
  function WithId(d: Draft, id: string): (s: Subscription)
    ensures s.id == id && s.ToDraft() == d
  {
    Subscription(id, d.name, d.bank, d.category, d.payer, d.website, d.startDate,
                 d.duration, d.monthlyPrice, d.annualPrice, d.currency,
                 d.lastPaymentDate, d.nextPaymentDate)
  }
}
