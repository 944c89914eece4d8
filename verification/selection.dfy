/**
 The capped selection loop shared by both recommendation paths: walk the
 candidates in order, ask a resolver about each, keep the hits, skip the
 misses, and stop as soon as the cap is reached.
 */
module Selection {
  import opened Wrappers

  /** Both loops stop once this many results are collected. */
  const ResultCap: nat := 10

  /** The kept results, and how many candidates were handed to the resolver. */
  datatype Selected<R> = Selected(results: seq<R>, examined: nat)

  function HitOf<T, R>(resolve: T -> Option<R>, x: T): seq<R> {
    match resolve(x)
    case Some(v) => [v]
    case None => []
  }

  /** Every hit of `resolve` over `items`, in order, with no cap: the reference the loop is measured against. */
  function Hits<T, R>(items: seq<T>, resolve: T -> Option<R>): (r: seq<R>)
    ensures |r| <= |items|
  {
    if |items| == 0 then [] else HitOf(resolve, items[0]) + Hits(items[1..], resolve)
  }

  lemma {:induction false} HitsAppend<T, R>(a: seq<T>, b: seq<T>, resolve: T -> Option<R>)
    ensures Hits(a + b, resolve) == Hits(a, resolve) + Hits(b, resolve)
    decreases |a|
  {
    if |a| == 0 {
      assert a + b == b;
    } else {
      assert (a + b)[1..] == a[1..] + b;
      HitsAppend(a[1..], b, resolve);
    }
  }

  lemma HitsOfPrefix<T, R>(items: seq<T>, k: nat, resolve: T -> Option<R>)
    requires k <= |items|
    ensures k > 0 ==> Hits(items[..k], resolve) == HitOf(resolve, items[0]) + Hits(items[1..][..k - 1], resolve)
  {
    if k > 0 {
      assert items[..k][1..] == items[1..][..k - 1];
    }
  }

  /**
   The loop itself: the results are the hits among the examined prefix, there
   are never more than `cap` of them, the walk only stops early when the cap is
   reached, and the last candidate examined was looked up while fewer than
   `cap` results were held.
   */
  function Select<T, R>(items: seq<T>, resolve: T -> Option<R>, cap: nat): (r: Selected<R>)
    requires cap > 0
    ensures r.examined <= |items|
    ensures r.results == Hits(items[..r.examined], resolve)
    ensures |r.results| <= cap
    ensures r.examined < |items| ==> |r.results| == cap
    ensures r.examined > 0 ==> |Hits(items[..r.examined - 1], resolve)| < cap
    decreases |items|
  {
    if |items| == 0 then
      Selected([], 0)
    else
      var here := HitOf(resolve, items[0]);
      var room := cap - |here|;
      HitsOfPrefix(items, 1, resolve);
      if room == 0 then
        Selected(here, 1)
      else
        var rest := Select(items[1..], resolve, room);
        HitsOfPrefix(items, rest.examined + 1, resolve);
        HitsOfPrefix(items, rest.examined, resolve);
        Selected(here + rest.results, rest.examined + 1)
  }

  /** The capped result is exactly the first `cap` hits of the whole list, and all of them when there are fewer. */
  lemma SelectIsCappedHits<T, R>(items: seq<T>, resolve: T -> Option<R>, cap: nat)
    requires cap > 0
    ensures var r := Select(items, resolve, cap); var all := Hits(items, resolve);
            && (|all| <= cap ==> r.results == all)
            && (|all| < cap ==> r.examined == |items|)
            && (|all| > cap ==> r.results == all[..cap])
  {
    var r := Select(items, resolve, cap);
    assert items == items[..r.examined] + items[r.examined..];
    HitsAppend(items[..r.examined], items[r.examined..], resolve);
  }

  /** No candidate is looked up once the cap has been reached: every examined prefix held fewer than `cap` hits. */
  lemma SelectStopsAtCap<T, R>(items: seq<T>, resolve: T -> Option<R>, cap: nat)
    requires cap > 0
    ensures var r := Select(items, resolve, cap);
            forall k :: 0 <= k < r.examined ==> |Hits(items[..k], resolve)| < cap
  {
    var r := Select(items, resolve, cap);
    forall k | 0 <= k < r.examined
      ensures |Hits(items[..k], resolve)| < cap
    {
      HitsGrowWithPrefix(items, resolve, k, r.examined - 1);
    }
  }

  /** A longer prefix never has fewer hits. */
  lemma HitsGrowWithPrefix<T, R>(items: seq<T>, resolve: T -> Option<R>, k: nat, e: nat)
    requires k <= e <= |items|
    ensures |Hits(items[..k], resolve)| <= |Hits(items[..e], resolve)|
  {
    assert items[..e] == items[..k] + items[k..e];
    HitsAppend(items[..k], items[k..e], resolve);
  }

  /** Whatever holds of every value the resolver can produce holds of every hit. */
  lemma {:induction false} HitsSatisfy<T, R>(items: seq<T>, resolve: T -> Option<R>, P: R -> bool)
    requires forall x :: resolve(x).Some? ==> P(resolve(x).value)
    ensures forall v :: v in Hits(items, resolve) ==> P(v)
    decreases |items|
  {
    if |items| > 0 {
      HitsSatisfy(items[1..], resolve, P);
    }
  }

  /** A resolver that never finds anything yields no hits. */
  lemma {:induction false} HitsOfNothing<T, R>(items: seq<T>, resolve: T -> Option<R>)
    requires forall x :: resolve(x).None?
    ensures Hits(items, resolve) == []
    decreases |items|
  {
    if |items| > 0 {
      HitsOfNothing(items[1..], resolve);
    }
  }
}
