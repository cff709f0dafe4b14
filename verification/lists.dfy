/** `filter` and `mapNotNull` over sequences, with the facts the merge of
    the settings file uses about them. */
module Lists {
  import opened Wrappers

  /** The elements satisfying `keep`, in order. */
  function Filter<T>(xs: seq<T>, keep: T -> bool): seq<T>
    decreases |xs|
  {
    if |xs| == 0 then []
    else (if keep(xs[0]) then [xs[0]] else []) + Filter(xs[1..], keep)
  }

  /** The values `pick` finds in the elements, in order. */
  function Collect<T, U>(xs: seq<T>, pick: T -> Option<U>): seq<U>
    decreases |xs|
  {
    if |xs| == 0 then []
    else (match pick(xs[0]) case Some(u) => [u] case None => []) + Collect(xs[1..], pick)
  }

  lemma {:induction false} FilterAppend<T>(a: seq<T>, b: seq<T>, keep: T -> bool)
    ensures Filter(a + b, keep) == Filter(a, keep) + Filter(b, keep)
    decreases |a|
  {
    if |a| > 0 {
      assert (a + b)[1..] == a[1..] + b;
      FilterAppend(a[1..], b, keep);
    } else {
      assert a + b == b;
    }
  }

  lemma {:induction false} CollectAppend<T, U>(a: seq<T>, b: seq<T>, pick: T -> Option<U>)
    ensures Collect(a + b, pick) == Collect(a, pick) + Collect(b, pick)
    decreases |a|
  {
    if |a| > 0 {
      assert (a + b)[1..] == a[1..] + b;
      CollectAppend(a[1..], b, pick);
    } else {
      assert a + b == b;
    }
  }

  /** An element survives the filter exactly when it occurs and passes. */
  lemma {:induction false} FilterMembers<T>(xs: seq<T>, keep: T -> bool, x: T)
    ensures x in Filter(xs, keep) <==> x in xs && keep(x)
    decreases |xs|
  {
    if |xs| > 0 {
      FilterMembers(xs[1..], keep, x);
      assert xs == [xs[0]] + xs[1..];
    }
  }

  lemma {:induction false} FilterAll<T>(xs: seq<T>, keep: T -> bool)
    requires forall k | 0 <= k < |xs| :: keep(xs[k])
    ensures Filter(xs, keep) == xs
    decreases |xs|
  {
    if |xs| > 0 {
      FilterAll(xs[1..], keep);
      assert xs == [xs[0]] + xs[1..];
    }
  }

  lemma {:induction false} FilterNone<T>(xs: seq<T>, keep: T -> bool)
    requires forall k | 0 <= k < |xs| :: !keep(xs[k])
    ensures Filter(xs, keep) == []
    decreases |xs|
  {
    if |xs| > 0 {
      FilterNone(xs[1..], keep);
    }
  }

  lemma {:induction false} CollectNone<T, U>(xs: seq<T>, pick: T -> Option<U>)
    requires forall k | 0 <= k < |xs| :: pick(xs[k]).None?
    ensures Collect(xs, pick) == []
    decreases |xs|
  {
    if |xs| > 0 {
      CollectNone(xs[1..], pick);
    }
  }

  /** When every element yields a value, those values are collected. */
  lemma {:induction false} CollectAll<T, U>(xs: seq<T>, us: seq<U>, pick: T -> Option<U>)
    requires |xs| == |us|
    requires forall k | 0 <= k < |xs| :: pick(xs[k]) == Some(us[k])
    ensures Collect(xs, pick) == us
    decreases |xs|
  {
    if |xs| > 0 {
      CollectAll(xs[1..], us[1..], pick);
      assert us == [us[0]] + us[1..];
    }
  }

  /** Every collected value comes from some element. */
  lemma {:induction false} CollectSource<T, U>(xs: seq<T>, pick: T -> Option<U>, u: U)
    requires u in Collect(xs, pick)
    ensures exists k | 0 <= k < |xs| :: pick(xs[k]) == Some(u)
    decreases |xs|
  {
    if pick(xs[0]) != Some(u) {
      assert u in Collect(xs[1..], pick);
      CollectSource(xs[1..], pick, u);
      var k :| 0 <= k < |xs| - 1 && pick(xs[1..][k]) == Some(u);
      assert xs[k + 1] == xs[1..][k];
    }
  }
}
