/** The two computations of `components/SubscriptionList.tsx`: the
    per-currency totals (a left fold over the list) and the six sort orders
    applied to a copy of the list. */
module SubscriptionList {
  import opened Calendar
  import opened Types
  import opened DateUtils
  import opened StableSort

  // ---------------------------------------------------------------------
  // Totals

  datatype CurrencyTotals = CurrencyTotals(monthly: real, annual: real)

  type Totals = map<Currency, CurrencyTotals>

  /** Which of the two stored prices a sum adds up. */
  datatype PriceView = MonthlyView | AnnualView

  function PriceOf(s: Subscription, v: PriceView): real {
    if v == MonthlyView then s.monthlyPrice else s.annualPrice
  }

  /** Reference definition: the sum of one price over the subscriptions
      billed in currency `c`. */
  function Sum(subs: seq<Subscription>, c: Currency, v: PriceView): real {
    if |subs| == 0 then 0.0
    else (if subs[0].currency == c then PriceOf(subs[0], v) else 0.0) + Sum(subs[1..], c, v)
  }

  /** The currencies the list uses. */
  function CurrenciesOf(subs: seq<Subscription>): set<Currency> {
    set s | s in subs :: s.currency
  }

  /** One step of the reduce: open a zero entry for a new currency, then add
      both prices to it. */
  function AddToTotals(acc: Totals, sub: Subscription): (r: Totals)
    ensures r.Keys == acc.Keys + {sub.currency}
    ensures forall c :: c in acc && c != sub.currency ==> r[c] == acc[c]
    ensures var prev := if sub.currency in acc then acc[sub.currency] else CurrencyTotals(0.0, 0.0);
            r[sub.currency] == CurrencyTotals(prev.monthly + sub.monthlyPrice, prev.annual + sub.annualPrice)
  {
    var t := if sub.currency in acc then acc[sub.currency] else CurrencyTotals(0.0, 0.0);
    acc[sub.currency := CurrencyTotals(t.monthly + sub.monthlyPrice, t.annual + sub.annualPrice)]
  }

  /** `totalsByCurrency`: a currency has an entry exactly when some
      subscription uses it, and the entry holds that currency's sums. */
  function TotalsByCurrency(subs: seq<Subscription>): (r: Totals)
    ensures r.Keys == CurrenciesOf(subs)
    ensures forall c :: c in r ==> r[c] == CurrencyTotals(Sum(subs, c, MonthlyView), Sum(subs, c, AnnualView))
  {
    if |subs| == 0 then map[]
    else
      var prefix, last := subs[..|subs| - 1], subs[|subs| - 1];
      assert subs == prefix + [last];
      AddToTotalsStep(TotalsByCurrency(prefix), prefix, last);
      AddToTotals(TotalsByCurrency(prefix), last)
  }

  /** One reduce step turns the totals of `prefix` into those of
      `prefix + [last]`. */
  lemma AddToTotalsStep(prev: Totals, prefix: seq<Subscription>, last: Subscription)
    requires prev.Keys == CurrenciesOf(prefix)
    requires forall c :: c in prev ==> prev[c] == CurrencyTotals(Sum(prefix, c, MonthlyView), Sum(prefix, c, AnnualView))
    ensures var r := AddToTotals(prev, last);
            && r.Keys == CurrenciesOf(prefix + [last])
            && forall c :: c in r ==> r[c] == CurrencyTotals(Sum(prefix + [last], c, MonthlyView),
                                                             Sum(prefix + [last], c, AnnualView))
  {
    var r := AddToTotals(prev, last);
    assert CurrenciesOf(prefix + [last]) == CurrenciesOf(prefix) + {last.currency};
    forall c, v ensures Sum(prefix + [last], c, v) == Sum(prefix, c, v) + (if last.currency == c then PriceOf(last, v) else 0.0) {
      SumConcat(prefix, [last], c, v);
      assert [last][1..] == [];
    }
    if last.currency !in prev {
      SumAbsent(prefix, last.currency, MonthlyView);
      SumAbsent(prefix, last.currency, AnnualView);
    }
  }

  /** A currency no subscription uses sums to zero. */
  lemma {:induction false} SumAbsent(subs: seq<Subscription>, c: Currency, v: PriceView)
    requires c !in CurrenciesOf(subs)
    ensures Sum(subs, c, v) == 0.0
  {
    if |subs| > 0 {
      assert subs[0] in subs;
      assert CurrenciesOf(subs[1..]) <= CurrenciesOf(subs) by {
        forall x | x in subs[1..] ensures x in subs {
        }
      }
      SumAbsent(subs[1..], c, v);
    }
  }

  lemma {:induction false} SumConcat(a: seq<Subscription>, b: seq<Subscription>, c: Currency, v: PriceView)
    ensures Sum(a + b, c, v) == Sum(a, c, v) + Sum(b, c, v)
  {
    if |a| == 0 {
      assert a + b == b;
    } else {
      assert (a + b)[1..] == a[1..] + b;
      SumConcat(a[1..], b, c, v);
    }
  }

  /** Taking one element out of the list takes its price out of the sum. */
  lemma SumRemove(b: seq<Subscription>, k: int, c: Currency, v: PriceView)
    requires 0 <= k < |b|
    ensures Sum(b, c, v) == Sum(b[..k] + b[k + 1..], c, v) + Sum([b[k]], c, v)
  {
    assert b == b[..k] + [b[k]] + b[k + 1..];
    SumConcat(b[..k] + [b[k]], b[k + 1..], c, v);
    SumConcat(b[..k], [b[k]], c, v);
    SumConcat(b[..k], b[k + 1..], c, v);
  }

  /** The sums do not depend on the order of the list. */
  lemma {:induction false} SumPermutation(a: seq<Subscription>, b: seq<Subscription>, c: Currency, v: PriceView)
    requires multiset(a) == multiset(b)
    ensures Sum(a, c, v) == Sum(b, c, v)
    decreases |a|
  {
    if |a| == 0 {
      assert |b| == |multiset(b)| == 0;
    } else {
      var x := a[0];
      assert x in multiset(b);
      var k :| 0 <= k < |b| && b[k] == x;
      var rest := b[..k] + b[k + 1..];
      assert multiset(a[1..]) == multiset(rest) by {
        assert a == [x] + a[1..];
        assert multiset(a) == multiset{x} + multiset(a[1..]);
        assert b == b[..k] + [x] + b[k + 1..];
        assert multiset(b) == multiset(b[..k]) + multiset{x} + multiset(b[k + 1..]);
        assert multiset(rest) == multiset(b[..k]) + multiset(b[k + 1..]);
        assert multiset(a[1..]) == multiset(a) - multiset{x};
        assert multiset(rest) == multiset(b) - multiset{x};
      }
      SumPermutation(a[1..], rest, c, v);
      SumRemove(b, k, c, v);
      SumConcat([x], a[1..], c, v);
      assert a == [x] + a[1..];
    }
  }

  /** Reordering the list leaves the totals as they are. */
  lemma TotalsOrderIndependent(a: seq<Subscription>, b: seq<Subscription>)
    requires multiset(a) == multiset(b)
    ensures TotalsByCurrency(a) == TotalsByCurrency(b)
  {
    assert CurrenciesOf(a) == CurrenciesOf(b) by {
      forall s ensures s in a <==> s in b {
        assert s in a <==> s in multiset(a);
        assert s in b <==> s in multiset(b);
      }
    }
    forall c, v {
      SumPermutation(a, b, c, v);
    }
  }

  // ---------------------------------------------------------------------
  // Sorting

  /** The options of the sort selector. */
  datatype SortBy = NameAsc | NameDesc | PriceDesc | PriceAsc | DateDesc | DateAsc

  /** The `switch` on the selected value; anything unrecognised falls to
      the `name-asc` default. */
  function ParseSortBy(key: string): (r: SortBy)
    ensures r == NameDesc <==> key == "name-desc"
    ensures r == PriceDesc <==> key == "price-desc"
    ensures r == PriceAsc <==> key == "price-asc"
    ensures r == DateDesc <==> key == "date-desc"
    ensures r == DateAsc <==> key == "date-asc"
    ensures r == NameAsc <==> key !in {"name-desc", "price-desc", "price-asc", "date-desc", "date-asc"}
  {
    if key == "price-desc" then PriceDesc
    else if key == "price-asc" then PriceAsc
    else if key == "date-desc" then DateDesc
    else if key == "date-asc" then DateAsc
    else if key == "name-desc" then NameDesc
    else NameAsc
  }

  /** `compare(a, b) <= 0` for the comparator of each option;
      `nameLeq(x, y)` stands for `x.localeCompare(y) <= 0`. */
  predicate InOrder(order: SortBy, nameLeq: (string, string) -> bool, a: Subscription, b: Subscription) {
    match order
    case PriceDesc => b.monthlyPrice - a.monthlyPrice <= 0.0
    case PriceAsc => a.monthlyPrice - b.monthlyPrice <= 0.0
    case DateDesc => Instant(b.startDate) - Instant(a.startDate) <= 0
    case DateAsc => Instant(a.startDate) - Instant(b.startDate) <= 0
    case NameDesc => nameLeq(b.name, a.name)
    case NameAsc => nameLeq(a.name, b.name)
  }

  function Comparator(order: SortBy, nameLeq: (string, string) -> bool): (Subscription, Subscription) -> bool {
    (a, b) => InOrder(order, nameLeq, a, b)
  }

  /** Each comparator is consistent when the name comparison is. */
  lemma ComparatorIsPreorder(order: SortBy, nameLeq: (string, string) -> bool)
    requires TotalPreorder(nameLeq)
    ensures TotalPreorder(Comparator(order, nameLeq))
  {
  }

  /** `sortedSubscriptions`: a sorted, stable permutation of a copy of the
      list (the input value itself is never changed). */
  function SortedSubscriptions(subs: seq<Subscription>, key: string, nameLeq: (string, string) -> bool)
    : (r: seq<Subscription>)
    requires TotalPreorder(nameLeq)
    ensures multiset(r) == multiset(subs)
    ensures Sorted(r, Comparator(ParseSortBy(key), nameLeq))
    ensures Stable(subs, r, Comparator(ParseSortBy(key), nameLeq))
  {
    var le := Comparator(ParseSortBy(key), nameLeq);
    ComparatorIsPreorder(ParseSortBy(key), nameLeq);
    SortStable(subs, le);
    Sort(subs, le)
  }

  /** `price-asc` lists monthly prices in non-decreasing order. */
  lemma PriceAscending(subs: seq<Subscription>, nameLeq: (string, string) -> bool)
    requires TotalPreorder(nameLeq)
    ensures var r := SortedSubscriptions(subs, "price-asc", nameLeq);
            forall i, j :: 0 <= i < j < |r| ==> r[i].monthlyPrice <= r[j].monthlyPrice
  {
    var r := SortedSubscriptions(subs, "price-asc", nameLeq);
    forall i, j | 0 <= i < j < |r| ensures r[i].monthlyPrice <= r[j].monthlyPrice {
      assert Comparator(PriceAsc, nameLeq)(r[i], r[j]);
    }
  }

  /** `price-desc` lists monthly prices in non-increasing order. */
  lemma PriceDescending(subs: seq<Subscription>, nameLeq: (string, string) -> bool)
    requires TotalPreorder(nameLeq)
    ensures var r := SortedSubscriptions(subs, "price-desc", nameLeq);
            forall i, j :: 0 <= i < j < |r| ==> r[i].monthlyPrice >= r[j].monthlyPrice
  {
    var r := SortedSubscriptions(subs, "price-desc", nameLeq);
    forall i, j | 0 <= i < j < |r| ensures r[i].monthlyPrice >= r[j].monthlyPrice {
      assert Comparator(PriceDesc, nameLeq)(r[i], r[j]);
    }
  }

  /** `date-asc` lists start dates oldest first. */
  lemma DateAscending(subs: seq<Subscription>, nameLeq: (string, string) -> bool)
    requires TotalPreorder(nameLeq)
    ensures var r := SortedSubscriptions(subs, "date-asc", nameLeq);
            forall i, j :: 0 <= i < j < |r| ==> !Before(r[j].startDate, r[i].startDate)
  {
    var r := SortedSubscriptions(subs, "date-asc", nameLeq);
    forall i, j | 0 <= i < j < |r| ensures !Before(r[j].startDate, r[i].startDate) {
      assert Comparator(DateAsc, nameLeq)(r[i], r[j]);
      DayNumberOrder(r[j].startDate, r[i].startDate);
    }
  }

  /** `date-desc` lists start dates newest first. */
  lemma DateDescending(subs: seq<Subscription>, nameLeq: (string, string) -> bool)
    requires TotalPreorder(nameLeq)
    ensures var r := SortedSubscriptions(subs, "date-desc", nameLeq);
            forall i, j :: 0 <= i < j < |r| ==> !Before(r[i].startDate, r[j].startDate)
  {
    var r := SortedSubscriptions(subs, "date-desc", nameLeq);
    forall i, j | 0 <= i < j < |r| ensures !Before(r[i].startDate, r[j].startDate) {
      assert Comparator(DateDesc, nameLeq)(r[i], r[j]);
      DayNumberOrder(r[i].startDate, r[j].startDate);
    }
  }

  /** An unrecognised option sorts exactly like `name-asc`. */
  lemma UnknownKeySortsByName(subs: seq<Subscription>, key: string, nameLeq: (string, string) -> bool)
    requires TotalPreorder(nameLeq)
    requires key !in {"name-asc", "name-desc", "price-desc", "price-asc", "date-desc", "date-asc"}
    ensures SortedSubscriptions(subs, key, nameLeq) == SortedSubscriptions(subs, "name-asc", nameLeq)
    ensures var r := SortedSubscriptions(subs, key, nameLeq);
            forall i, j :: 0 <= i < j < |r| ==> nameLeq(r[i].name, r[j].name)
  {
    var r := SortedSubscriptions(subs, key, nameLeq);
    forall i, j | 0 <= i < j < |r| ensures nameLeq(r[i].name, r[j].name) {
      assert Comparator(NameAsc, nameLeq)(r[i], r[j]);
    }
  }

  /** The subscriptions of `s` with monthly price `p`, in order. */
  function WithPrice(s: seq<Subscription>, p: real): seq<Subscription> {
    if |s| == 0 then []
    else (if s[0].monthlyPrice == p then [s[0]] else []) + WithPrice(s[1..], p)
  }

  lemma {:induction false} PriceClass(s: seq<Subscription>, e: Subscription, nameLeq: (string, string) -> bool)
    ensures Equivalents(s, e, Comparator(PriceAsc, nameLeq)) == WithPrice(s, e.monthlyPrice)
  {
    if |s| > 0 {
      PriceClass(s[1..], e, nameLeq);
    }
  }

  /** Under `price-asc`, subscriptions of equal price keep their order. */
  lemma EqualPricesKeepOrder(subs: seq<Subscription>, p: real, nameLeq: (string, string) -> bool)
    requires TotalPreorder(nameLeq)
    ensures WithPrice(SortedSubscriptions(subs, "price-asc", nameLeq), p) == WithPrice(subs, p)
  {
    var r := SortedSubscriptions(subs, "price-asc", nameLeq);
    var e := Subscription("", "", "", "", "", "", Date(1970, 1, 1), Monthly, p, 12.0 * p, USD,
                          Wrappers.None, Wrappers.None);
    PriceClass(r, e, nameLeq);
    PriceClass(subs, e, nameLeq);
  }
}
