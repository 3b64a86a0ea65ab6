# Subscription tracker: billing rules in Dafny

A model of the rules behind a browser-based subscription tracker. Each
subscription has a name, a price, a billing cadence (Monthly or Annually), a
currency (USD, EUR, TRY) and a payer. The app keeps each subscription's next
payment date, shows how urgent each payment is, totals the prices per
currency, sorts the list and converts amounts into euros with a cached
exchange-rate table.

One Dafny module per source file:

- `Calendar` (`calendar.dfy`): dates as (year, month, day) with ECMAScript
  day numbers. It proves that the year-by-year count matches the closed form
  in section 21.4.1.3 of ECMA-262. `Normalize` is `MakeDay` followed by the
  conversion back to a date: a day-of-month past the end of the month rolls
  into the next month.
- `DateUtils` (`services/dateUtils.ts`): month and year addition, the
  one-period roll forward, the ceiling day count and the colour bands.
- `ProgressBar`, `SubscriptionCard` (the two components): the progress
  percentage, the colour bands, the status label, the card's own day count
  and the "Due Soon" badge.
- `StableSort` and `SubscriptionList` (`components/SubscriptionList.tsx`):
  the per-currency totals and the six sort orders. `Array.prototype.sort` is
  stable by section 23.1.3 of ECMA-262, and is modelled as a stable
  insertion sort over a total preorder.
- `ExchangeRates` (`services/exchangeRates.ts`): the cache is an explicit
  `RateCache` value. Each call to `FetchExchangeRates` is one step. It takes
  the clock and the outcome of the request as parameters.
- `NumberText` and `SubscriptionForm` (`components/SubscriptionForm.tsx`):
  `parseFloat` on decimal text, price derivation, the initial form state,
  and the submit handler's validation, payload and reset.
- `App` (`App.tsx`): loading the stored list, add, and confirmed delete, as
  pure list operations.
- `Types` (`types.ts`, `constants.ts`) and `Wrappers`: the records and the
  `Option` type.

Conventions:

- An instant is an integer count of milliseconds.
- A date's instant is its midnight: `DayNumber * 86_400_000`.
- Prices and rates are `real`.
- "Now", the fetch outcome, the confirm answer, the generated id and the
  parsed storage contents are all parameters.

The model follows the code as written:

- Month addition overflows into the following month rather than clamping
  to the month's last day. January 31 plus one month is March 2 or March 3
  (`DateUtils.January31PlusOneMonth`).
- February 29 plus one year is March 1, not February 28.
- `updatePaymentDates` advances by exactly one period per call, even when
  the new date is still in the past (`DateUtils.UpdateAddsOnlyOnePeriod`).
- Records without schedule dates keep none: nothing fills them in. A missing
  `nextPaymentDate` makes `new Date(undefined)` invalid, so the record is
  returned unchanged and its day count is `NaN` (`None`).
- A failed fetch returns the fixed fallback table even when an expired
  table is cached (`ExchangeRates.StaleCacheNotUsedOnFailure`).
- The progress bar always spans 31 days, whatever the cadence.
- The list sorts by name, price or start date only, and totals each
  currency separately, with no combined euro total.

## Model

| member | source | states |
|---|---|---|
| Calendar.Normalize | services/dateUtils.ts:3-13 | A day-of-month past the month's end carries into later months. The result is a valid date whose day number is the first of the month plus `day - 1`, as `MakeDay` computes it. |
| Calendar.DayNumberOrder | services/dateUtils.ts:17-20 | On valid dates, calendar order (year, month, day) is the same as the order of day numbers, so comparing instants compares dates. |
| DateUtils.AddMonthsToDate | services/dateUtils.ts:3-7 | The month index moves by `months`, carrying into the year. The day is kept if the target month has it; otherwise the date lands in the following month, on the overflow day. The day number is the target month's first plus `day - 1`. |
| DateUtils.AddYearsToDate | services/dateUtils.ts:9-13 | Month and day are kept, except that Feb 29 becomes Mar 1 in a target year that is not a leap year. |
| DateUtils.UpdatePaymentDates | services/dateUtils.ts:15-40 | A subscription that is not due, or has no next date, is returned unchanged. When due, the old next date becomes the last date, the new next date is one period later and strictly after it, and no other field changes. |
| DateUtils.CalculateDaysUntilPayment | services/dateUtils.ts:42-48 | A value exists iff there is a next date. It is the ceiling of the millisecond difference divided by one day. |
| DateUtils.CeilDays | services/dateUtils.ts:46-47 | `Math.ceil(ms / day)`: the least n with `ms <= n * day`. |
| DateUtils.GetProgressBarConfig | services/dateUtils.ts:50-66 | Always a matched bar/text pair. Each of the five colours holds exactly on its day range for each cadence. Annual counts above 30 are blue; monthly counts above 31 are slate. |
| DateUtils.AdvanceIsLater | services/dateUtils.ts:24-32 | One period later is strictly later, both in the calendar and in day numbers. |
| DateUtils.AddOneMonthKeepsDay | services/dateUtils.ts:3-7 | If the next month has the day, adding one month keeps the day and moves to the next month, carrying December into January. |
| DateUtils.DecemberCarries | services/dateUtils.ts:3-7 | December plus one month is January of the next year, on the same day. |
| DateUtils.AddOneMonthOverflows | services/dateUtils.ts:3-7 | If the next month lacks the day, the result is in the month after, on the day past that month's length. |
| DateUtils.AddMonthsIsLater | services/dateUtils.ts:3-7 | Adding one or more months always gives a strictly later date. |
| DateUtils.January31PlusOneMonth | services/dateUtils.ts:3-7 | Jan 31 plus one month is Mar 3 in a common year and Mar 2 in a leap year. It is never clamped to February. |
| DateUtils.LeapDayPlusYears | services/dateUtils.ts:9-13 | Feb 29 plus one year is Mar 1. Plus four years, it stays Feb 29 when the target is a leap year. |
| DateUtils.UpdateSettles | services/dateUtils.ts:15-40 | Once a roll forward leaves the schedule in the future, calling it again changes nothing. |
| DateUtils.UpdateAddsOnlyOnePeriod | services/dateUtils.ts:20-36 | If a whole period has passed since the old next date, the result still has exactly one period added and is still due. |
| DateUtils.DaysPositiveIffFuture | services/dateUtils.ts:42-48 | The day count is positive iff the payment's midnight is after now. |
| DateUtils.DaysIsCalendarDifference | services/dateUtils.ts:42-48 | At any time during calendar day T, the count is the next date's day number minus T: 0 for today, 1 for tomorrow, -1 for yesterday. |
| ProgressBar.Progress | components/ProgressBar.tsx:10-11 | Progress is in [0, 100]. It is 0 from 31 days on and 100 at 0 days or fewer. In between it is `(31 - days) * 100 / 31`. |
| ProgressBar.ColorClasses | components/ProgressBar.tsx:14-20 | The bands split the integers: 15-31 blue, 10-14 green, 3-9 orange, 0-2 red, anything else slate. |
| ProgressBar.TextColor | components/ProgressBar.tsx:22-28 | The label's bands, on the same ranges. |
| ProgressBar.GetStatus | components/ProgressBar.tsx:30-35 | Negative gives Overdue, 0 gives Due Today, 1 gives Due Tomorrow, and 2 or more gives that many days left. |
| ProgressBar.ProgressNonIncreasing | components/ProgressBar.tsx:11 | Progress never grows as the count of days grows. |
| ProgressBar.BarAndTextAgree | components/ProgressBar.tsx:14-28 | Bar and label always pick the same band. |
| ProgressBar.BandsMatchMonthlyConfig | components/ProgressBar.tsx:14-28 | The bar's bands are the Monthly branch of `getProgressBarConfig`. |
| ProgressBar.DaysLeftText | components/ProgressBar.tsx:34 | From 2 days on, the label is the decimal count followed by " days left", and `parseFloat` reads the count back from it. |
| SubscriptionCard.CardDaysUntilPayment | components/SubscriptionCard.tsx:27-41 | Ceiling of the day difference. The target is the start date's midnight, plus 30 or 365 days if that midnight is before now. |
| SubscriptionCard.CeilDaysShift | components/SubscriptionCard.tsx:35-39 | Adding k whole days before taking the ceiling adds exactly k to the result. |
| SubscriptionCard.FutureStartUnshifted | components/SubscriptionCard.tsx:28-39 | A start midnight that is not before now is counted without a shift. |
| SubscriptionCard.PastStartShiftedOnce | components/SubscriptionCard.tsx:32-36 | A passed start date gets exactly one flat 30 days (Monthly) or 365 days (otherwise) added. |
| SubscriptionCard.LongPastStillNegative | components/SubscriptionCard.tsx:32-39 | A start date more than one flat period in the past still gives a negative count. |
| SubscriptionCard.StartTodayShiftedAfterMidnight | components/SubscriptionCard.tsx:28-32 | A start date of today counts 0 at midnight exactly. At any later moment that day it counts the full 30 or 365. |
| SubscriptionCard.DueSoonIsRedOrOverdue | components/SubscriptionCard.tsx:56 | The badge shows iff the count is at most 2: every negative count and the red band. |
| StableSort.Insert | components/SubscriptionList.tsx:28-46 | Inserting into a sorted list gives a sorted list with exactly one more copy of the element. |
| StableSort.Sort | components/SubscriptionList.tsx:28-46 | The result is a sorted permutation of the input. |
| StableSort.SortStable | components/SubscriptionList.tsx:29 | Each class of equivalent elements keeps its input order. |
| SubscriptionList.AddToTotals | components/SubscriptionList.tsx:17-22 | One reduce step adds the sub's monthly and annual prices to its currency's entry, starting from zero when the currency is new. It changes no other currency's entry. |
| SubscriptionList.TotalsByCurrency | components/SubscriptionList.tsx:16-23 | A currency has an entry iff some subscription uses it. The entry holds the sums of that currency's monthly and annual prices. |
| SubscriptionList.AddToTotalsStep | components/SubscriptionList.tsx:16-23 | One reduce step turns the totals of a prefix into the totals of the prefix plus the next subscription. |
| SubscriptionList.SumPermutation | components/SubscriptionList.tsx:16-23 | A per-currency sum is the same for every reordering of the list. |
| SubscriptionList.TotalsOrderIndependent | components/SubscriptionList.tsx:16-23 | The whole totals map does not depend on the order of the list. |
| SubscriptionList.ParseSortBy | components/SubscriptionList.tsx:30-44 | Each of the five named keys selects its own order. Every other string, `name-asc` included, selects name ascending. |
| SubscriptionList.SortedSubscriptions | components/SubscriptionList.tsx:27-47 | The result is a permutation of the list, sorted and stable under the selected comparator. |
| SubscriptionList.PriceAscending | components/SubscriptionList.tsx:33-34 | `price-asc` gives non-decreasing monthly prices. |
| SubscriptionList.PriceDescending | components/SubscriptionList.tsx:31-32 | `price-desc` gives non-increasing monthly prices. |
| SubscriptionList.DateAscending | components/SubscriptionList.tsx:37-38 | `date-asc` never puts a start date after a later one. |
| SubscriptionList.DateDescending | components/SubscriptionList.tsx:35-36 | `date-desc` never puts a start date before a later one. |
| SubscriptionList.UnknownKeySortsByName | components/SubscriptionList.tsx:41-43 | An unrecognised key sorts exactly like `name-asc`, and names come out in order. |
| SubscriptionList.EqualPricesKeepOrder | components/SubscriptionList.tsx:29-34 | Under `price-asc`, subscriptions with the same monthly price keep their input order. |
| ExchangeRates.FetchExchangeRates | services/exchangeRates.ts:20-50 | Inside the window, a call returns the cached table without a request and leaves the cache unchanged. Otherwise it makes a request. A body stores its rates with the `now` taken before the request. Every failure returns the fallback table and leaves the cache unchanged. |
| ExchangeRates.ConvertToEUR | services/exchangeRates.ts:52-64 | EUR amounts are unchanged. A missing or zero rate leaves the amount unchanged. Any other rate gives a result that, times the rate, is the amount. |
| ExchangeRates.CachedWithinWindow | services/exchangeRates.ts:20-40 | After a successful fetch, any later call within an hour returns that same table without a request, whatever the request would have returned. |
| ExchangeRates.RequestAfterExpiry | services/exchangeRates.ts:24-30 | Once an hour has passed since the last fetch, the next call makes a request. |
| ExchangeRates.FailuresAlike | services/exchangeRates.ts:28-41 | A non-ok status and an unparsable body are handled exactly like a network error. |
| ExchangeRates.StaleCacheNotUsedOnFailure | services/exchangeRates.ts:41-49 | A failure with an expired table cached still returns the fallback table {USD 1.08, EUR 1.0, TRY 0.033}, and keeps the old cache. |
| ExchangeRates.MissingRatesNotCached | services/exchangeRates.ts:34-40 | A body without `rates` returns `undefined`. Because it caches nothing truthy, the next call makes a request again. |
| ExchangeRates.FallbackConversion | services/exchangeRates.ts:43-63 | With the fallback table, USD and TRY amounts are divided by 1.08 and 0.033, and EUR amounts are unchanged. |
| NumberText.ParseNatPrefix | components/SubscriptionForm.tsx:31 | `parseFloat` reads a natural number's digits back as that number, when the text after them cannot continue a decimal. Exponents and `Infinity` are left out. |
| NumberText.NoDigitNoNumber | components/SubscriptionForm.tsx:31 | Text with no digit parses to `NaN`. `Infinity` is left out. |
| NumberText.LeadingSpaceIgnored | components/SubscriptionForm.tsx:31 | Leading white space does not change the parse. |
| NumberText.ParseNegativeNat | components/SubscriptionForm.tsx:31 | A leading minus sign negates the number. |
| NumberText.EmptyIsNotANumber | components/SubscriptionForm.tsx:31 | The empty field parses to `NaN`. |
| SubscriptionForm.ParsePrice | components/SubscriptionForm.tsx:31 | `parseFloat(priceInput) or 0`: text that is not a number is 0. Otherwise it is the parsed value. A shown number reads back as itself. |
| SubscriptionForm.DerivePrices | components/SubscriptionForm.tsx:30-39 | Monthly: monthly is the price. Annually: annual is the price. In both cases annual = 12 × monthly. |
| SubscriptionForm.InitialForm | components/SubscriptionForm.tsx:14-25 | A new form has the reset defaults. An edit form takes the record's fields, with the first category and payer in place of an empty one, and its price field shows the monthly price for Monthly and the annual price otherwise. |
| SubscriptionForm.ResetForm | components/SubscriptionForm.tsx:60-70 | Reset gives empty texts, the first category and payer, Monthly, USD and today. |
| SubscriptionForm.HandleSubmit | components/SubscriptionForm.tsx:41-71 | A submit is rejected iff the name or the price text is empty. Otherwise the payload is the form's fields with the derived prices and no schedule dates. The form resets only when not editing. |
| SubscriptionForm.UnparseablePriceIsZero | components/SubscriptionForm.tsx:31-38 | Price text that is not a number gives 0 monthly and 0 annual, for either cadence. |
| SubscriptionForm.TypedWholePrice | components/SubscriptionForm.tsx:30-39 | A typed whole price n gives (n, 12n) for Monthly and (n/12, n) for Annually. |
| SubscriptionForm.EditRoundTrip | components/SubscriptionForm.tsx:14-58 | Submitting an unchanged edit form returns the record (id aside) when its prices agree, but without schedule dates. |
| SubscriptionForm.AddResetsToInitial | components/SubscriptionForm.tsx:60-70 | After a successful add, the form is back in the state of a new form. |
| Types.WithId | App.tsx:27-30 | The new record has the given id, and its other fields are exactly the submitted ones. |
| App.LoadSubscriptions | App.tsx:8-16 | The parsed stored list is used when the stored text is non-empty and parses. Otherwise the list is empty. |
| App.AddSubscription | App.tsx:26-33 | The new record comes first, with the generated id and the submitted fields. The previous list follows unchanged. |
| App.WithoutId | App.tsx:37 | The kept records are exactly those whose id differs. |
| App.DeleteSubscription | App.tsx:35-39 | A declined delete changes nothing. A confirmed delete keeps exactly the records with another id. |
| App.WithoutIdAppend | App.tsx:37 | Deleting distributes over concatenation, so kept records stay in their original order. |
| App.DeleteAbsentId | App.tsx:36-37 | Deleting an id no record has leaves the list unchanged. |
| App.DeleteCounts | App.tsx:37 | After a confirmed delete, each record with another id occurs as often as before, and each record with the id does not occur. |
| App.DeleteAfterAdd | App.tsx:26-39 | Deleting the id just added (when it was new) restores the previous list. Deleting another id keeps the new record first. |

## Left out

- Time zones. Dates and "now" share one calendar. The UTC/local mix of
  `new Date(string)`, `setMonth` and `toISOString` is not modelled.
- ISO date strings: parsing and formatting, `toLocaleDateString`, and an
  emptied date field. Dates are valid `(year, month, day)` values.
- IEEE-754 arithmetic, `NaN` rates and `toFixed`. Prices and rates are
  exact reals.
- `parseFloat` exponents, `Infinity` and Unicode space characters other
  than the six ASCII ones.
- `number.toString()`. A price shown in the edit form is the abstract value
  `Shown(v)`.
- `localeCompare`. The name order is a parameter that must be a total
  preorder.
- Storage writes (`App.tsx:18-24`), `JSON.parse`, `window.confirm`,
  `alert` and console logging. Their outcomes are parameters.
- `fetch`, `async` and overlapping requests. One call is one step with a
  given outcome.
- The order of the totals on screen. `Object.entries` lists currencies in
  order of first occurrence, while `Totals` is an unordered map, so only
  the entries are modelled.
- JSX, CSS class strings (the colours are the `Tone` enum), icons,
  currency symbols on screen, the edit modal, and the missing `onEdit`
  wiring of the list.
