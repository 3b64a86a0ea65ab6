/** The list operations of `App.tsx`: loading the stored list, adding a
    record in front, and deleting by id after a confirmation. Storage,
    `JSON.parse`, the confirmation dialog and the clock are parameters. */
module App {
  import opened Wrappers
  import opened Types

  /** What storage held under the `subscriptions` key, with the outcome of
      parsing it (`None` when `JSON.parse` throws). */
  datatype Stored = Absent | Stored(text: string, parsed: Option<seq<Subscription>>)

  /** The initial state: the stored list, or the empty list when nothing
      usable was stored (no entry, an empty string, or text that does not
      parse). */
  function LoadSubscriptions(stored: Stored): (r: seq<Subscription>)
    ensures stored.Stored? && stored.text != "" && stored.parsed.Some? ==> r == stored.parsed.value
    ensures !(stored.Stored? && stored.text != "" && stored.parsed.Some?) ==> r == []
  {
    match stored
    case Absent => []
    case Stored(text, parsed) => if text == "" then [] else parsed.GetOr([])
  }

  /** `addSubscription`: the new record, with the generated id, goes first. */
  function AddSubscription(prev: seq<Subscription>, draft: Draft, id: string): (r: seq<Subscription>)
    ensures |r| == |prev| + 1
    ensures r[0].id == id && r[0].ToDraft() == draft
    ensures r[1..] == prev
  {
    [WithId(draft, id)] + prev
  }

  /** The records whose id differs from `id`, in their order. */
  function WithoutId(s: seq<Subscription>, id: string): (r: seq<Subscription>)
    ensures forall x :: x in r <==> x in s && x.id != id
    ensures |r| <= |s|
  {
    if |s| == 0 then []
    else (if s[0].id == id then [] else [s[0]]) + WithoutId(s[1..], id)
  }

  /** `deleteSubscription`: only a confirmed delete changes the list. */
  function DeleteSubscription(prev: seq<Subscription>, id: string, confirmed: bool): (r: seq<Subscription>)
    ensures !confirmed ==> r == prev
    ensures confirmed ==> forall x :: x in r <==> x in prev && x.id != id
  {
    if confirmed then WithoutId(prev, id) else prev
  }

  // ---------------------------------------------------------------------
  // Properties

  /** Deleting works piecewise, so the kept records stay in order. */
  lemma {:induction false} WithoutIdAppend(a: seq<Subscription>, b: seq<Subscription>, id: string)
    ensures WithoutId(a + b, id) == WithoutId(a, id) + WithoutId(b, id)
  {
    if |a| == 0 {
      assert a + b == b;
    } else {
      assert (a + b)[1..] == a[1..] + b;
      WithoutIdAppend(a[1..], b, id);
    }
  }

  /** Deleting an id nobody has changes nothing. */
  lemma {:induction false} DeleteAbsentId(prev: seq<Subscription>, id: string, confirmed: bool)
    requires forall x :: x in prev ==> x.id != id
    ensures DeleteSubscription(prev, id, confirmed) == prev
  {
    if confirmed && |prev| > 0 {
      assert prev == [prev[0]] + prev[1..];
      DeleteAbsentId(prev[1..], id, confirmed);
    }
  }

  /** Deleting keeps each record a number of times: none for the id,
      unchanged for every other record. */
  lemma {:induction false} DeleteCounts(prev: seq<Subscription>, id: string, x: Subscription)
    ensures multiset(DeleteSubscription(prev, id, true))[x]
            == if x.id == id then 0 else multiset(prev)[x]
  {
    if |prev| > 0 {
      assert prev == [prev[0]] + prev[1..];
      DeleteCounts(prev[1..], id, x);
    }
  }

  /** Deleting the id just added undoes the add, when the id was new;
      deleting another id keeps the new record first. */
  lemma DeleteAfterAdd(prev: seq<Subscription>, draft: Draft, id: string, other: string)
    requires forall x :: x in prev ==> x.id != id
    requires other != id
    ensures DeleteSubscription(AddSubscription(prev, draft, id), id, true) == prev
    ensures DeleteSubscription(AddSubscription(prev, draft, id), other, true)
            == [WithId(draft, id)] + DeleteSubscription(prev, other, true)
  {
    WithoutIdAppend([WithId(draft, id)], prev, id);
    WithoutIdAppend([WithId(draft, id)], prev, other);
    DeleteAbsentId(prev, id, true);
  }
}
