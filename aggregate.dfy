/** The derived figures the summary panel shows: the number of dishes and
    the average price per course, recomputed from the menu on every read. */
module Aggregate {
  import opened Wrappers
  import opened Menu

  /** Some dish on the menu is of course `c`. */
  predicate HasCourse(items: seq<MenuItem>, c: Course)
  {
    exists k :: 0 <= k < |items| && items[k].course == c
  }

  /** `items.filter(i => i.course === c)`: the dishes of course `c`. */
  function CourseItems(items: seq<MenuItem>, c: Course): (r: seq<MenuItem>)
    ensures |r| <= |items|
    ensures forall k :: 0 <= k < |r| ==> r[k].course == c
  {
    if items == [] then
      []
    else
      var last := items[|items| - 1];
      CourseItems(items[..|items| - 1], c) + (if last.course == c then [last] else [])
  }

  /** `items.reduce((s, it) => s + it.price, 0)`: the prices added up from
      the first dish to the last. */
  function SumPrices(items: seq<MenuItem>): (total: real)
  {
    if items == [] then 0.0 else SumPrices(items[..|items| - 1]) + items[|items| - 1].price
  }

  /** totalItems: the length of the menu, which is also the number of
      starters, mains and desserts together. */
  function TotalCount(items: seq<MenuItem>): (n: nat)
    ensures n == |CourseItems(items, Starter)| + |CourseItems(items, Main)| + |CourseItems(items, Dessert)|
  {
    CoursePartition(items);
    |items|
  }

  /** getAverage(c): no data (the '-' shown) when no dish is of course
      `c`, otherwise the mean price of the dishes of course `c`. */
  function Average(items: seq<MenuItem>, c: Course): (r: Option<real>)
    ensures r.None? <==> !HasCourse(items, c)
  {
    var sel := CourseItems(items, c);
    CourseItemsEmptyIff(items, c);
    if |sel| == 0 then None else Some(SumPrices(sel) / |sel| as real)
  }

  /** The course filter keeps exactly the dishes of that course. */
  lemma {:induction false} CourseItemsMembers(items: seq<MenuItem>, c: Course)
    ensures forall x :: x in CourseItems(items, c) <==> x in items && x.course == c
  {
    if items != [] {
      var front := items[..|items| - 1];
      assert items == front + [items[|items| - 1]];
      CourseItemsMembers(front, c);
    }
  }

  lemma {:induction false} CourseItemsEmptyIff(items: seq<MenuItem>, c: Course)
    ensures CourseItems(items, c) == [] <==> !HasCourse(items, c)
  {
    var sel := CourseItems(items, c);
    CourseItemsMembers(items, c);
    if HasCourse(items, c) {
      var k :| 0 <= k < |items| && items[k].course == c;
      assert items[k] in sel;
    }
    if sel != [] {
      assert sel[0] in items;
      var k :| 0 <= k < |items| && items[k] == sel[0];
      assert items[k].course == c;
    }
  }

  /** The course filter respects order: filtering a concatenation filters
      each part. */
  lemma {:induction false} CourseItemsConcat(a: seq<MenuItem>, b: seq<MenuItem>, c: Course)
    ensures CourseItems(a + b, c) == CourseItems(a, c) + CourseItems(b, c)
  {
    if b == [] {
      assert a + b == a;
    } else {
      var front := b[..|b| - 1];
      assert (a + b)[..|a + b| - 1] == a + front;
      assert (a + b)[|a + b| - 1] == b[|b| - 1];
      CourseItemsConcat(a, front, c);
    }
  }

  /** Every dish is of exactly one of the three courses. */
  lemma {:induction false} CoursePartition(items: seq<MenuItem>)
    ensures |items| == |CourseItems(items, Starter)| + |CourseItems(items, Main)| + |CourseItems(items, Dessert)|
  {
    if items != [] {
      CoursePartition(items[..|items| - 1]);
    }
  }

  lemma {:induction false} SumConcat(a: seq<MenuItem>, b: seq<MenuItem>)
    ensures SumPrices(a + b) == SumPrices(a) + SumPrices(b)
  {
    if b == [] {
      assert a + b == a;
    } else {
      var front := b[..|b| - 1];
      assert (a + b)[..|a + b| - 1] == a + front;
      assert (a + b)[|a + b| - 1] == b[|b| - 1];
      SumConcat(a, front);
    }
  }

  /** A sum of prices that all lie in [lo, hi] lies in [n * lo, n * hi]. */
  lemma {:induction false} SumBounds(s: seq<MenuItem>, lo: real, hi: real)
    requires forall k :: 0 <= k < |s| ==> lo <= s[k].price <= hi
    ensures (|s| as real) * lo <= SumPrices(s) <= (|s| as real) * hi
  {
    if s != [] {
      var front := s[..|s| - 1];
      SumBounds(front, lo, hi);
      assert (|s| as real) * lo == (|front| as real) * lo + lo;
      assert (|s| as real) * hi == (|front| as real) * hi + hi;
    }
  }

  /** The average of a course lies between the lowest and the highest price
      of that course. */
  lemma {:induction false} AverageBounds(items: seq<MenuItem>, c: Course, lo: real, hi: real)
    requires forall k :: 0 <= k < |items| && items[k].course == c ==> lo <= items[k].price <= hi
    requires HasCourse(items, c)
    ensures Average(items, c).Some? && lo <= Average(items, c).value <= hi
  {
    var sel := CourseItems(items, c);
    CourseItemsBounded(items, c, lo, hi);
    SumBounds(sel, lo, hi);
    CourseItemsEmptyIff(items, c);
    DivideBounds(SumPrices(sel), |sel| as real, lo, hi);
    assert Average(items, c) == Some(SumPrices(sel) / |sel| as real);
  }

  lemma {:induction false} CourseItemsBounded(items: seq<MenuItem>, c: Course, lo: real, hi: real)
    requires forall k :: 0 <= k < |items| && items[k].course == c ==> lo <= items[k].price <= hi
    ensures forall k :: 0 <= k < |CourseItems(items, c)| ==> lo <= CourseItems(items, c)[k].price <= hi
  {
    if items != [] {
      var front := items[..|items| - 1];
      assert forall k :: 0 <= k < |front| ==> front[k] == items[k];
      CourseItemsBounded(front, c, lo, hi);
    }
  }

  lemma {:induction false} DivideBounds(sum: real, n: real, lo: real, hi: real)
    requires n > 0.0 && n * lo <= sum <= n * hi
    ensures lo <= sum / n <= hi
  {
    assert sum / n * n == sum;
  }

  /** On a menu whose dishes all passed validation an average is a positive
      price. */
  lemma {:induction false} AveragePositive(items: seq<MenuItem>, c: Course)
    requires AllWellFormed(items)
    ensures Average(items, c).Some? ==> Average(items, c).value > 0.0
  {
    var sel := CourseItems(items, c);
    if sel != [] {
      CourseItemsPositive(items, c);
      SumPositive(sel);
      assert Average(items, c) == Some(SumPrices(sel) / |sel| as real);
    }
  }

  lemma {:induction false} CourseItemsPositive(items: seq<MenuItem>, c: Course)
    requires AllWellFormed(items)
    ensures forall k :: 0 <= k < |CourseItems(items, c)| ==> CourseItems(items, c)[k].price > 0.0
  {
    if items != [] {
      var front := items[..|items| - 1];
      assert forall k :: 0 <= k < |front| ==> front[k] == items[k];
      CourseItemsPositive(front, c);
    }
  }

  /** Prices that are all positive add up to a positive sum. */
  lemma {:induction false} SumPositive(s: seq<MenuItem>)
    requires s != [] && forall k :: 0 <= k < |s| ==> s[k].price > 0.0
    ensures SumPrices(s) > 0.0
  {
    if |s| > 1 {
      SumPositive(s[..|s| - 1]);
    }
  }

  /** Adding a dish of another course leaves a course's average alone. */
  lemma {:induction false} AverageAppendOther(items: seq<MenuItem>, x: MenuItem, c: Course)
    requires x.course != c
    ensures Average(items + [x], c) == Average(items, c)
  {
    CourseItemsConcat(items, [x], c);
    CourseItemsSingle(x, c);
    assert CourseItems(items, c) + [] == CourseItems(items, c);
  }

  /** Adding a dish of course `c` folds its price into that course's mean. */
  lemma {:induction false} AverageAppendSame(items: seq<MenuItem>, x: MenuItem)
    ensures var sel := CourseItems(items, x.course);
            Average(items + [x], x.course) ==
              Some((SumPrices(sel) + x.price) / (|sel| + 1) as real)
  {
    var c := x.course;
    var sel := CourseItems(items, c);
    assert (items + [x])[..|items|] == items;
    var sel' := CourseItems(items + [x], c);
    assert sel' == sel + [x];
    assert sel'[..|sel|] == sel;
    assert SumPrices(sel') == SumPrices(sel) + x.price;
    assert Average(items + [x], c) == Some(SumPrices(sel') / |sel'| as real);
  }

  /** Removing an id that no dish of course `c` carries leaves the average
      of `c` unchanged. */
  lemma {:induction false} AverageRemoveOther(items: seq<MenuItem>, id: int, c: Course)
    requires forall k :: 0 <= k < |items| && items[k].id == id ==> items[k].course != c
    ensures Average(WithoutId(items, id), c) == Average(items, c)
  {
    CourseItemsRemoveOther(items, id, c);
  }

  lemma {:induction false} CourseItemsRemoveOther(items: seq<MenuItem>, id: int, c: Course)
    requires forall k :: 0 <= k < |items| && items[k].id == id ==> items[k].course != c
    ensures CourseItems(WithoutId(items, id), c) == CourseItems(items, c)
  {
    if items != [] {
      var front := items[..|items| - 1];
      var last := items[|items| - 1];
      assert forall k :: 0 <= k < |front| ==> front[k] == items[k];
      CourseItemsRemoveOther(front, id, c);
      var kept := if last.id == id then [] else [last];
      assert WithoutId(items, id) == WithoutId(front, id) + kept;
      CourseItemsConcat(WithoutId(front, id), kept, c);
      CourseItemsSingle(last, c);
    }
  }

  lemma {:induction false} CourseItemsSingle(x: MenuItem, c: Course)
    ensures CourseItems([x], c) == if x.course == c then [x] else []
  {
    assert [x][..0] == [];
  }
}
