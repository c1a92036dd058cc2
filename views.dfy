/**
  The derived product list `applyFilters` renders: a copy of the collection
  narrowed to one category, then sorted with the comparator chosen by the sort
  selector. `Array.prototype.sort` is stable, so the view is the stable sort of
  the filtered list; here it is an insertion sort that places each element
  before the first one it does not follow.
*/
module Views {
  import Text
  import opened Catalog

  /** The values of the sort selector; any value other than the three named ones sorts nothing. */
  datatype SortKey = ByName | ByPrice | ByQuantity | Unsorted

  /** The selector's string value as a key (the `switch` of the comparator). */
  function SortKeyOf(value: string): (k: SortKey)
    ensures k == ByName <==> value == "name"
    ensures k == ByPrice <==> value == "price"
    ensures k == ByQuantity <==> value == "quantity"
    ensures k == Unsorted <==> value != "name" && value != "price" && value != "quantity"
  {
    if value == "name" then ByName
    else if value == "price" then ByPrice
    else if value == "quantity" then ByQuantity
    else Unsorted
  }

  /** The comparator passed to `sort`: negative when `a` goes first, positive when `b` does. */
  function Compare(key: SortKey, a: Product, b: Product): int {
    match key
    case ByName => Text.LexCompare(a.name, b.name)
    case ByPrice => a.price - b.price
    case ByQuantity => b.quantity - a.quantity
    case Unsorted => 0
  }

  /** `a` may stand before `b` in a sorted list. */
  predicate Precedes(key: SortKey, a: Product, b: Product) {
    Compare(key, a, b) <= 0
  }

  /** Of any two products, one may stand before the other. */
  lemma PrecedesTotal(key: SortKey, a: Product, b: Product)
    ensures Precedes(key, a, b) || Precedes(key, b, a)
  {
    if key == ByName {
      Text.LexCompareAntisymmetric(a.name, b.name);
    }
  }

  lemma PrecedesTransitive(key: SortKey, a: Product, b: Product, c: Product)
    requires Precedes(key, a, b) && Precedes(key, b, c)
    ensures Precedes(key, a, c)
  {
    if key == ByName {
      Text.LexCompareTransitive(a.name, b.name, c.name);
    }
  }

  /** Every product stands where the comparator allows it to, relative to every later one. */
  ghost predicate Sorted(key: SortKey, s: seq<Product>) {
    forall i, j :: 0 <= i < j < |s| ==> Precedes(key, s[i], s[j])
  }

  /** Places `x` before the first element it may precede. */
  function Insert(key: SortKey, x: Product, s: seq<Product>): (r: seq<Product>)
    ensures multiset(r) == multiset(s) + multiset{x}
  {
    if s == [] then [x]
    else if Precedes(key, x, s[0]) then [x] + s
    else
      assert s == [s[0]] + s[1..];
      [s[0]] + Insert(key, x, s[1..])
  }

  /** The stable sort: each element is inserted in front of the sorted rest. */
  function Sort(key: SortKey, s: seq<Product>): (r: seq<Product>)
    ensures multiset(r) == multiset(s)
  {
    if s == [] then []
    else
      assert s == [s[0]] + s[1..];
      Insert(key, s[0], Sort(key, s[1..]))
  }

  lemma {:induction false} InsertSorted(key: SortKey, x: Product, s: seq<Product>)
    requires Sorted(key, s)
    ensures Sorted(key, Insert(key, x, s))
  {
    if s == [] {
    } else if Precedes(key, x, s[0]) {
      forall j | 0 <= j < |s| ensures Precedes(key, x, s[j]) {
        if j > 0 { PrecedesTransitive(key, x, s[0], s[j]); }
      }
    } else {
      PrecedesTotal(key, x, s[0]);
      var t := Insert(key, x, s[1..]);
      InsertSorted(key, x, s[1..]);
      forall j | 0 <= j < |t| ensures Precedes(key, s[0], t[j]) {
        assert t[j] in multiset(t);
        if t[j] != x {
          assert t[j] in multiset(s[1..]);
          var k :| 0 <= k < |s[1..]| && s[1..][k] == t[j];
          assert s[k + 1] == t[j];
        }
      }
    }
  }

  /** The sort's result is sorted under its key. */
  lemma {:induction false} SortSorted(key: SortKey, s: seq<Product>)
    ensures Sorted(key, Sort(key, s))
  {
    if s != [] {
      SortSorted(key, s[1..]);
      InsertSorted(key, s[0], Sort(key, s[1..]));
    }
  }

  /** A list that is already sorted comes back unchanged: the sort moves nothing it need not move. */
  lemma {:induction false} SortedIsFixpoint(key: SortKey, s: seq<Product>)
    requires Sorted(key, s)
    ensures Sort(key, s) == s
  {
    if s != [] {
      assert Sorted(key, s[1..]);
      SortedIsFixpoint(key, s[1..]);
      assert s == [s[0]] + s[1..];
    }
  }

  /** Sorting a sorted view again changes nothing. */
  lemma SortIdempotent(key: SortKey, s: seq<Product>)
    ensures Sort(key, Sort(key, s)) == Sort(key, s)
  {
    SortSorted(key, s);
    SortedIsFixpoint(key, Sort(key, s));
  }

  /** With no sort key the comparator always answers 0, and the order is the original one. */
  lemma UnsortedKeepsOrder(s: seq<Product>)
    ensures Sort(Unsorted, s) == s
  {
    SortedIsFixpoint(Unsorted, s);
  }

  /** The category filter: an empty filter value keeps every product. */
  predicate InCategory(filter: string, p: Product) {
    filter == [] || p.category == filter
  }

  /** `filter(p => p.category === categoryFilter)` when a category is selected, the whole copy otherwise. */
  function FilterByCategory(s: seq<Product>, filter: string): (r: seq<Product>)
    ensures |r| <= |s|
    ensures forall i :: 0 <= i < |r| ==> InCategory(filter, r[i])
    ensures filter == [] ==> r == s
  {
    if s == [] then []
    else
      assert filter == [] ==> s == [s[0]] + s[1..];
      (if InCategory(filter, s[0]) then [s[0]] else []) + FilterByCategory(s[1..], filter)
  }

  /** The filter keeps each product of the category as often as it is stored, and no other. */
  lemma {:induction false} FilterCounts(s: seq<Product>, filter: string)
    ensures forall p :: multiset(FilterByCategory(s, filter))[p] == if InCategory(filter, p) then multiset(s)[p] else 0
  {
    if s != [] {
      FilterCounts(s[1..], filter);
      assert s == [s[0]] + s[1..];
      var head := if InCategory(filter, s[0]) then [s[0]] else [];
      assert multiset(FilterByCategory(s, filter)) == multiset(head) + multiset(FilterByCategory(s[1..], filter));
      assert multiset(s) == multiset{s[0]} + multiset(s[1..]);
    }
  }

  /** Filtering keeps relative order: it distributes over concatenation. */
  lemma {:induction false} FilterAppend(a: seq<Product>, b: seq<Product>, filter: string)
    ensures FilterByCategory(a + b, filter) == FilterByCategory(a, filter) + FilterByCategory(b, filter)
  {
    if a == [] {
      assert a + b == b;
    } else {
      var head := if InCategory(filter, a[0]) then [a[0]] else [];
      assert (a + b)[0] == a[0];
      assert (a + b)[1..] == a[1..] + b;
      FilterAppend(a[1..], b, filter);
      calc {
        FilterByCategory(a + b, filter);
        head + FilterByCategory(a[1..] + b, filter);
        head + (FilterByCategory(a[1..], filter) + FilterByCategory(b, filter));
        (head + FilterByCategory(a[1..], filter)) + FilterByCategory(b, filter);
        FilterByCategory(a, filter) + FilterByCategory(b, filter);
      }
    }
  }

  /** What sortedness means for each key: by name ascending, by price ascending, by quantity descending. */
  lemma SortedMeans(key: SortKey, r: seq<Product>)
    requires Sorted(key, r)
    ensures key == ByName ==> forall i, j :: 0 <= i < j < |r| ==> Text.LexCompare(r[i].name, r[j].name) <= 0
    ensures key == ByPrice ==> forall i, j :: 0 <= i < j < |r| ==> r[i].price <= r[j].price
    ensures key == ByQuantity ==> forall i, j :: 0 <= i < j < |r| ==> r[i].quantity >= r[j].quantity
  {
    assert forall i, j :: 0 <= i < j < |r| ==> Precedes(key, r[i], r[j]);
  }

  /** Sorting neither adds nor drops products, so the filter's guarantees carry over to the sorted view. */
  lemma SortKeepsSelection(key: SortKey, f: seq<Product>, s: seq<Product>, filter: string)
    requires f == FilterByCategory(s, filter)
    ensures forall p :: multiset(Sort(key, f))[p] == if InCategory(filter, p) then multiset(s)[p] else 0
    ensures forall i :: 0 <= i < |Sort(key, f)| ==> InCategory(filter, Sort(key, f)[i])
  {
    FilterCounts(s, filter);
    var r := Sort(key, f);
    forall i | 0 <= i < |r| ensures InCategory(filter, r[i]) {
      assert r[i] in multiset(r);
      assert r[i] in multiset(f);
    }
  }

  /**
    The list `applyFilters` renders: exactly the products of the selected
    category, each as often as it is stored, in the order of the sort key;
    with no sort key, in the stored order.
  */
  function ApplyFilters(s: seq<Product>, filter: string, key: SortKey): (r: seq<Product>)
    ensures forall p :: multiset(r)[p] == if InCategory(filter, p) then multiset(s)[p] else 0
    ensures forall i :: 0 <= i < |r| ==> InCategory(filter, r[i])
    ensures Sorted(key, r)
    ensures key == ByName ==> forall i, j :: 0 <= i < j < |r| ==> Text.LexCompare(r[i].name, r[j].name) <= 0
    ensures key == ByPrice ==> forall i, j :: 0 <= i < j < |r| ==> r[i].price <= r[j].price
    ensures key == ByQuantity ==> forall i, j :: 0 <= i < j < |r| ==> r[i].quantity >= r[j].quantity
    ensures key == Unsorted ==> r == FilterByCategory(s, filter)
    ensures key == Unsorted && filter == [] ==> r == s
  {
    var f := FilterByCategory(s, filter);
    SortKeepsSelection(key, f, s, filter);
    SortSorted(key, f);
    SortedMeans(key, Sort(key, f));
    UnsortedKeepsOrder(f);
    Sort(key, f)
  }
}
