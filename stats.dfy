/**
  The two figures `updateStats` shows: the number of items in stock (the sum
  of the quantities) and the stock's value (the sum of price times quantity),
  each a left fold from zero over the collection as `reduce` computes it.
  Prices are in cents, so the value is an exact number of cents.
*/
module Stats {
  import opened Catalog
  import Views

  /** `reduce((sum, p) => sum + p.quantity, 0)`. */
  function TotalItems(s: seq<Product>): int {
    if s == [] then 0 else TotalItems(s[..|s| - 1]) + s[|s| - 1].quantity
  }

  /** `reduce((sum, p) => sum + p.price * p.quantity, 0)`, in cents. */
  function TotalValue(s: seq<Product>): int {
    if s == [] then 0 else TotalValue(s[..|s| - 1]) + s[|s| - 1].price * s[|s| - 1].quantity
  }

  /** The totals of two lists placed one after the other add up. */
  lemma {:induction false} TotalsAppend(a: seq<Product>, b: seq<Product>)
    ensures TotalItems(a + b) == TotalItems(a) + TotalItems(b)
    ensures TotalValue(a + b) == TotalValue(a) + TotalValue(b)
    decreases |b|
  {
    if b != [] {
      var b' := b[..|b| - 1];
      assert (a + b)[..|a + b| - 1] == a + b';
      TotalsAppend(a, b');
    } else {
      assert a + b == a;
    }
  }

  /** The totals of a one-product list. */
  lemma TotalsOne(p: Product)
    ensures TotalItems([p]) == p.quantity && TotalValue([p]) == p.price * p.quantity
  {
    assert [p][..0] == [];
  }

  /** The totals depend only on which products are stored, not on their order. */
  lemma {:induction false} TotalsPermutation(a: seq<Product>, b: seq<Product>)
    requires multiset(a) == multiset(b)
    ensures TotalItems(a) == TotalItems(b) && TotalValue(a) == TotalValue(b)
    decreases |a|
  {
    if a != [] {
      var x := a[|a| - 1];
      var a' := a[..|a| - 1];
      assert a == a' + [x];
      assert x in multiset(b);
      var k :| 0 <= k < |b| && b[k] == x;
      var b' := b[..k] + b[k + 1..];
      assert b == b[..k] + [x] + b[k + 1..];
      assert multiset(a) == multiset(a') + multiset{x};
      assert multiset(b) == multiset(b') + multiset{x} by {
        assert multiset(b) == multiset(b[..k]) + multiset([x]) + multiset(b[k + 1..]);
      }
      assert multiset(a') == multiset(a) - multiset{x};
      TotalsPermutation(a', b');
      TotalsAppend(b[..k] + [x], b[k + 1..]);
      TotalsAppend(b[..k], [x]);
      TotalsAppend(b[..k], b[k + 1..]);
      TotalsAppend(a', [x]);
      TotalsOne(x);
    } else {
      assert |multiset(b)| == 0;
    }
  }

  /** Every stored product counts at least one item, and no value is negative. */
  lemma {:induction false} TotalsOfValid(s: seq<Product>)
    requires AllValid(s)
    ensures TotalItems(s) >= |s|
    ensures TotalValue(s) >= 0
  {
    if s != [] {
      var p := s[|s| - 1];
      assert ValidProduct(p);
      var t := s[..|s| - 1];
      assert AllValid(t) by {
        forall i | 0 <= i < |t| ensures ValidProduct(t[i]) {
          assert t[i] == s[i];
        }
      }
      TotalsOfValid(s[..|s| - 1]);
      assert p.quantity >= 1 && p.price >= 0;
    }
  }

  /** Adding a product raises the totals by its own figures, or leaves them as they were. */
  lemma TotalsAfterAdd(s: seq<Product>, d: Draft, id: int, now: Timestamp)
    ensures var r := AfterAdd(s, d, id, now);
      if AddVerdict(s, d) == Applied then
        TotalItems(r) == TotalItems(s) + d.quantity && TotalValue(r) == TotalValue(s) + d.price * d.quantity
      else
        TotalItems(r) == TotalItems(s) && TotalValue(r) == TotalValue(s)
  {
    if AddVerdict(s, d) == Applied {
      var p := NewProduct(d, id, now);
      TotalsAppend(s, [p]);
      TotalsOne(p);
    }
  }

  /** Deleting a product lowers the totals by the figures of the product removed. */
  lemma TotalsAfterDelete(s: seq<Product>, id: int)
    ensures match FindIndex(s, id)
      case None => TotalItems(AfterDelete(s, id)) == TotalItems(s) && TotalValue(AfterDelete(s, id)) == TotalValue(s)
      case Some(i) =>
        TotalItems(AfterDelete(s, id)) == TotalItems(s) - s[i].quantity &&
        TotalValue(AfterDelete(s, id)) == TotalValue(s) - s[i].price * s[i].quantity
  {
    match FindIndex(s, id)
    case None =>
    case Some(i) =>
      assert s == s[..i] + [s[i]] + s[i + 1..];
      TotalsAppend(s[..i] + [s[i]], s[i + 1..]);
      TotalsAppend(s[..i], [s[i]]);
      TotalsAppend(s[..i], s[i + 1..]);
      TotalsOne(s[i]);
  }

  /** Updating a product swaps its old figures for the draft's. */
  lemma TotalsAfterUpdate(s: seq<Product>, id: int, d: Draft, now: Timestamp)
    ensures UpdateVerdict(s, id, d) == Applied ==>
      var i := FindIndex(s, id).value;
      TotalItems(AfterUpdate(s, id, d, now)) == TotalItems(s) - s[i].quantity + d.quantity &&
      TotalValue(AfterUpdate(s, id, d, now)) == TotalValue(s) - s[i].price * s[i].quantity + d.price * d.quantity
    ensures UpdateVerdict(s, id, d) != Applied ==>
      TotalItems(AfterUpdate(s, id, d, now)) == TotalItems(s) && TotalValue(AfterUpdate(s, id, d, now)) == TotalValue(s)
  {
    if UpdateVerdict(s, id, d) == Applied {
      var i := FindIndex(s, id).value;
      var m := Merge(s[i], d, now);
      var r := AfterUpdate(s, id, d, now);
      assert s == s[..i] + [s[i]] + s[i + 1..];
      assert r == s[..i] + [m] + s[i + 1..];
      TotalsAppend(s[..i] + [s[i]], s[i + 1..]);
      TotalsAppend(s[..i], [s[i]]);
      TotalsAppend(s[..i] + [m], s[i + 1..]);
      TotalsAppend(s[..i], [m]);
      TotalsOne(s[i]);
      TotalsOne(m);
    }
  }

  /** With the sample data loaded the page shows 45 items worth 7932.20. */
  lemma SampleTotals()
    ensures TotalItems(SampleData()) == 45
    ensures TotalValue(SampleData()) == 793220
  {
    var s := SampleData();
    assert s[..2][..1] == [s[0]];
    assert s[..2] == [s[0], s[1]];
    assert s[..3 - 1] == s[..2];
    TotalsOne(s[0]);
  }

  /** The view with every category shown, in any order, adds up to the figures of the whole inventory. */
  lemma ViewTotals(s: seq<Product>, key: Views.SortKey)
    ensures TotalItems(Views.ApplyFilters(s, [], key)) == TotalItems(s)
    ensures TotalValue(Views.ApplyFilters(s, [], key)) == TotalValue(s)
  {
    var r := Views.ApplyFilters(s, [], key);
    assert multiset(r) == multiset(s) by {
      forall p ensures multiset(r)[p] == multiset(s)[p] {
        assert Views.InCategory([], p);
      }
    }
    TotalsPermutation(r, s);
  }
}
