/** A stable sort over a total preorder: the order `Array.prototype.sort`
    produces (section 23.1.3 of ECMA-262 requires stability) when the
    comparator is consistent. `le(a, b)` stands for `compare(a, b) <= 0`. */
module StableSort {

  /** Every pair is comparable and the relation is transitive. */
  ghost predicate TotalPreorder<T(!new)>(le: (T, T) -> bool) {
    && (forall a, b :: le(a, b) || le(b, a))
    && (forall a, b, c :: le(a, b) && le(b, c) ==> le(a, c))
  }

  /** Every element is in order with every later one. */
  ghost predicate Sorted<T>(s: seq<T>, le: (T, T) -> bool) {
    forall i, j :: 0 <= i < j < |s| ==> le(s[i], s[j])
  }

  /** The elements of `s` that the preorder cannot tell from `e`, in their
      order in `s`. */
  function Equivalents<T>(s: seq<T>, e: T, le: (T, T) -> bool): seq<T> {
    if |s| == 0 then []
    else (if le(s[0], e) && le(e, s[0]) then [s[0]] else []) + Equivalents(s[1..], e, le)
  }

  /** Stability: every class of equivalent elements keeps its relative
      order. */
  ghost predicate Stable<T(!new)>(input: seq<T>, output: seq<T>, le: (T, T) -> bool) {
    forall e :: Equivalents(output, e, le) == Equivalents(input, e, le)
  }

  /** Inserts `x` after every element of sorted `r` that is not greater
      than it. */
  function Insert<T(!new)>(x: T, r: seq<T>, le: (T, T) -> bool): (q: seq<T>)
    requires TotalPreorder(le) && Sorted(r, le)
    ensures multiset(q) == multiset(r) + multiset{x}
    ensures Sorted(q, le)
  {
    if |r| == 0 then [x]
    else if le(r[0], x) then
      var tail := Insert(x, r[1..], le);
      assert multiset(r) == multiset{r[0]} + multiset(r[1..]) by {
        assert r == [r[0]] + r[1..];
      }
      assert forall k :: 0 <= k < |tail| ==> le(r[0], tail[k]) by {
        forall k | 0 <= k < |tail| ensures le(r[0], tail[k]) {
          assert tail[k] in multiset(tail);
          if tail[k] != x {
            assert tail[k] in r[1..];
          }
        }
      }
      [r[0]] + tail
    else
      [x] + r
  }

  /** Insertion sort, taking the input from left to right. */
  function Sort<T(!new)>(s: seq<T>, le: (T, T) -> bool): (r: seq<T>)
    requires TotalPreorder(le)
    ensures multiset(r) == multiset(s)
    ensures Sorted(r, le)
  {
    if |s| == 0 then []
    else
      assert s == s[..|s| - 1] + [s[|s| - 1]];
      Insert(s[|s| - 1], Sort(s[..|s| - 1], le), le)
  }

  // ---------------------------------------------------------------------
  // Stability

  lemma {:induction false} EquivalentsAppend<T>(a: seq<T>, b: seq<T>, e: T, le: (T, T) -> bool)
    ensures Equivalents(a + b, e, le) == Equivalents(a, e, le) + Equivalents(b, e, le)
  {
    if |a| == 0 {
      assert a + b == b;
    } else {
      assert (a + b)[1..] == a[1..] + b;
      EquivalentsAppend(a[1..], b, e, le);
    }
  }

  /** Elements all strictly greater than `x` hold nothing equivalent to
      `x`. */
  lemma {:induction false} NoEquivalentsAbove<T(!new)>(r: seq<T>, x: T, le: (T, T) -> bool)
    requires TotalPreorder(le)
    requires forall k :: 0 <= k < |r| ==> !le(r[k], x)
    ensures Equivalents(r, x, le) == []
  {
    if |r| > 0 {
      NoEquivalentsAbove(r[1..], x, le);
    }
  }

  lemma {:induction false} EquivalentsOfEquivalent<T(!new)>(r: seq<T>, x: T, e: T, le: (T, T) -> bool)
    requires TotalPreorder(le)
    requires le(x, e) && le(e, x)
    ensures Equivalents(r, e, le) == Equivalents(r, x, le)
  {
    if |r| > 0 {
      EquivalentsOfEquivalent(r[1..], x, e, le);
    }
  }

  /** Inserting `x` appends it to its class. */
  lemma {:induction false} InsertStable<T(!new)>(x: T, r: seq<T>, e: T, le: (T, T) -> bool)
    requires TotalPreorder(le) && Sorted(r, le)
    ensures Equivalents(Insert(x, r, le), e, le) == Equivalents(r + [x], e, le)
  {
    if |r| == 0 {
    } else if le(r[0], x) {
      assert r + [x] == [r[0]] + (r[1..] + [x]);
      InsertStable(x, r[1..], e, le);
      EquivalentsAppend([r[0]], Insert(x, r[1..], le), e, le);
      EquivalentsAppend([r[0]], r[1..] + [x], e, le);
    } else {
      EquivalentsAppend([x], r, e, le);
      EquivalentsAppend(r, [x], e, le);
      if le(x, e) && le(e, x) {
        forall k | 0 <= k < |r| ensures !le(r[k], x) {
          assert k == 0 || le(r[0], r[k]);
        }
        NoEquivalentsAbove(r, x, le);
        EquivalentsOfEquivalent(r, x, e, le);
      }
    }
  }

  /** The sort is stable. */
  lemma {:induction false} SortStable<T(!new)>(s: seq<T>, le: (T, T) -> bool)
    requires TotalPreorder(le)
    ensures Stable(s, Sort(s, le), le)
    decreases |s|
  {
    if |s| > 0 {
      var p, x := s[..|s| - 1], s[|s| - 1];
      assert s == p + [x];
      SortStable(p, le);
      forall e ensures Equivalents(Sort(s, le), e, le) == Equivalents(s, e, le) {
        InsertStable(x, Sort(p, le), e, le);
        EquivalentsAppend(Sort(p, le), [x], e, le);
        EquivalentsAppend(p, [x], e, le);
      }
    }
  }
}
