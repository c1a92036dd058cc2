/**
  The `InventoryManager` object: the product collection, the id of the product
  being edited, the theme, the saved copy of the data, and the parts of the
  page the object writes (the rendered cards and which of them the search
  shows, the two statistics, the theme attribute and the toggle icon). Each
  method changes exactly the fields the source's method changes, and its
  `ensures` ties the new collection to the functions of module Catalog.
*/
module Inventory {
  import opened Wrappers
  import Text
  import opened Catalog
  import Views
  import Search
  import Stats
  import opened Themes

  /**
    What `saveToStorage` writes under the storage key: the products, the theme
    and the time of the save; or an entry that cannot be parsed back.
    A field missing from a parsed entry is `None`.
  */
  datatype Stored =
    | Stored(products: Option<seq<Product>>, theme: Option<Theme>, lastUpdated: Timestamp)
    | Unreadable

  /** The products and theme `loadFromStorage` takes from a readable entry. */
  datatype Saved = Saved(products: seq<Product>, theme: Theme)

  /** The entry `saveToStorage` writes. */
  function Snapshot(products: seq<Product>, theme: Theme, now: Timestamp): (st: Stored)
    ensures st.Stored? && st.lastUpdated == now
  {
    Stored(Some(products), Some(theme), now)
  }

  /**
    What `loadFromStorage` finds: nothing when there is no entry or it cannot be
    parsed (the source then loads the sample data); otherwise the saved
    products, or none, and the saved theme, or the dark one.
  */
  function Restore(entry: Option<Stored>): (r: Option<Saved>)
    ensures r.None? <==> entry.None? || entry.value.Unreadable?
    ensures r.Some? ==> r.value.products == entry.value.products.GetOr([])
    ensures r.Some? && entry.value.theme.None? ==> r.value.theme.Dark?
    ensures r.Some? && entry.value.theme.Some? ==> r.value.theme == entry.value.theme.value
  {
    match entry
    case None => None
    case Some(Unreadable) => None
    case Some(Stored(products, theme, _)) => Some(Saved(products.GetOr([]), theme.GetOr(Dark)))
  }

  /** What was saved is what is loaded back. */
  lemma SaveThenLoad(products: seq<Product>, theme: Theme, now: Timestamp)
    ensures Restore(Some(Snapshot(products, theme, now))) == Some(Saved(products, theme))
  {
  }

  /** A card per position, every one shown: the state of freshly rendered cards. */
  function AllShown(n: nat): (v: seq<bool>)
    ensures |v| == n && forall i :: 0 <= i < n ==> v[i]
  {
    seq(n, _ => true)
  }

  /** `if (this.editingId)`: a form is being edited when the id is set and not 0. */
  predicate IsEditing(editingId: Option<int>) {
    editingId.Some? && editingId.value != 0
  }

  /** The draft `handleFormSubmit` builds from the form: the name trimmed, the rest as entered. */
  function Submitted(d: Draft): (r: Draft)
    ensures r.quantity == d.quantity && r.price == d.price && r.category == d.category
    ensures r.name == Text.Trim(d.name)
  {
    d.(name := Text.Trim(d.name))
  }

  class InventoryManager {
    var products: seq<Product>
    var editingId: Option<int>
    var currentTheme: Theme
    /** The entry under the storage key of the global store. */
    var storage: Option<Stored>
    /** The products whose cards are on the page, in page order. */
    var cards: seq<Product>
    /** Whether each card is displayed (the search hides cards). */
    var visible: seq<bool>
    /** The two statistics on the page. */
    var shownItems: int
    var shownValue: int
    /** The `data-theme` attribute of the page body. */
    var pageTheme: Theme
    /** The text of the theme toggle button. */
    var icon: string

    /** One display flag per card. */
    ghost predicate Valid()
      reads this
    {
      |visible| == |cards|
    }

    /** The cards show the whole collection in stored order, all displayed (`renderProducts`). */
    ghost predicate ShowsProducts()
      reads this
    {
      cards == products && visible == AllShown(|products|)
    }

    /** The statistics are those of the collection (`updateStats`). */
    ghost predicate ShowsStats()
      reads this
    {
      shownItems == Stats.TotalItems(products) && shownValue == Stats.TotalValue(products)
    }

    /**
      `new InventoryManager()` followed by `init`: the theme from the hour, then
      the saved data if there is a readable entry, else the sample data (which
      is then saved), then the cards and the statistics.
    */
    constructor (hour: int, entry: Option<Stored>, now: Timestamp)
      ensures Valid() && ShowsProducts() && ShowsStats()
      ensures editingId.None?
      ensures pageTheme == ThemeForHour(hour) && icon == Icon(ThemeForHour(hour))
      ensures Restore(entry).None? ==>
        products == SampleData() && currentTheme == ThemeForHour(hour) &&
        storage == Some(Snapshot(SampleData(), ThemeForHour(hour), now))
      ensures Restore(entry).Some? ==>
        products == Restore(entry).value.products && currentTheme == Restore(entry).value.theme &&
        storage == entry
    {
      products := [];
      editingId := None;
      currentTheme := Dark;
      storage := entry;
      cards := [];
      visible := [];
      shownItems := 0;
      shownValue := 0;
      pageTheme := Dark;
      icon := Moon;
      new;
      SetThemeByTime(hour);
      LoadFromStorage(now);
      RenderProducts();
      UpdateStats();
    }

    /** `setThemeByTime`: the theme for the hour, on the page and on the toggle. */
    method SetThemeByTime(hour: int)
      modifies this`currentTheme, this`pageTheme, this`icon
      ensures currentTheme == ThemeForHour(hour) && pageTheme == currentTheme && icon == Icon(currentTheme)
    {
      currentTheme := ThemeForHour(hour);
      pageTheme := currentTheme;
      icon := Icon(currentTheme);
    }

    /** `saveToStorage`: the products and theme replace the stored entry. */
    method SaveToStorage(now: Timestamp)
      modifies this`storage
      ensures storage == Some(Snapshot(products, currentTheme, now))
      ensures Restore(storage) == Some(Saved(products, currentTheme))
    {
      storage := Some(Snapshot(products, currentTheme, now));
      SaveThenLoad(products, currentTheme, now);
    }

    /** `loadSampleData`: the three sample products, then a save. */
    method LoadSampleData(now: Timestamp)
      modifies this`products, this`storage
      ensures products == SampleData() && AllValid(products) && Catalog.DistinctNames(products)
      ensures storage == Some(Snapshot(SampleData(), currentTheme, now))
    {
      SampleDataValid();
      SampleDataDistinct();
      products := SampleData();
      SaveToStorage(now);
    }

    /**
      `loadFromStorage`: a readable entry gives the products and the theme
      (the page attribute and icon are left as they were); otherwise the sample
      data is loaded and saved.
    */
    method LoadFromStorage(now: Timestamp)
      modifies this`products, this`currentTheme, this`storage
      ensures Restore(old(storage)).Some? ==>
        products == Restore(old(storage)).value.products &&
        currentTheme == Restore(old(storage)).value.theme && storage == old(storage)
      ensures Restore(old(storage)).None? ==>
        products == SampleData() && currentTheme == old(currentTheme) &&
        storage == Some(Snapshot(SampleData(), currentTheme, now))
    {
      match Restore(storage)
      case Some(saved) =>
        products := saved.products;
        currentTheme := saved.theme;
      case None =>
        LoadSampleData(now);
    }

    /** `renderProducts`: one displayed card per product, in stored order. */
    method RenderProducts()
      modifies this`cards, this`visible
      ensures Valid() && ShowsProducts()
    {
      cards := products;
      visible := AllShown(|products|);
    }

    /** `updateStats`: the two totals of the collection. */
    method UpdateStats()
      modifies this`shownItems, this`shownValue
      ensures ShowsStats()
    {
      shownItems := Stats.TotalItems(products);
      shownValue := Stats.TotalValue(products);
    }

    /** `clearAllData`: an empty collection, saved and shown. */
    method ClearAllData(now: Timestamp)
      modifies this`products, this`storage, this`cards, this`visible, this`shownItems, this`shownValue
      ensures products == []
      ensures storage == Some(Snapshot([], currentTheme, now))
      ensures Valid() && ShowsProducts() && ShowsStats()
      ensures cards == [] && shownItems == 0 && shownValue == 0
    {
      products := [];
      SaveToStorage(now);
      RenderProducts();
      UpdateStats();
    }

    /**
      `addProduct`: a valid draft whose normalised name is new is appended with
      the given id and creation time, then saved and shown; otherwise nothing
      changes.
    */
    method AddProduct(d: Draft, id: int, now: Timestamp) returns (outcome: Outcome)
      modifies this`products, this`storage, this`cards, this`visible, this`shownItems, this`shownValue
      ensures outcome == AddVerdict(old(products), d)
      ensures products == AfterAdd(old(products), d, id, now)
      ensures outcome == Applied ==>
        products == old(products) + [NewProduct(d, id, now)] &&
        storage == Some(Snapshot(products, currentTheme, now)) &&
        Valid() && ShowsProducts() && ShowsStats()
      ensures outcome != Applied ==>
        products == old(products) && storage == old(storage) && cards == old(cards) &&
        visible == old(visible) && shownItems == old(shownItems) && shownValue == old(shownValue)
    {
      outcome := AddVerdict(products, d);
      if outcome == Applied {
        products := products + [NewProduct(d, id, now)];
        SaveToStorage(now);
        RenderProducts();
        UpdateStats();
      }
    }

    /**
      `updateProduct`: a valid draft is merged into the first product holding
      `id`, then saved and shown; an invalid draft or an unknown id changes
      nothing. No duplicate-name check is made.
    */
    method UpdateProduct(id: int, d: Draft, now: Timestamp) returns (outcome: Outcome)
      modifies this`products, this`storage, this`cards, this`visible, this`shownItems, this`shownValue
      ensures outcome == UpdateVerdict(old(products), id, d)
      ensures products == AfterUpdate(old(products), id, d, now)
      ensures outcome == Applied ==>
        var i := FindIndex(old(products), id).value;
        products == old(products)[i := Merge(old(products)[i], d, now)] &&
        storage == Some(Snapshot(products, currentTheme, now)) &&
        Valid() && ShowsProducts() && ShowsStats()
      ensures outcome != Applied ==>
        products == old(products) && storage == old(storage) && cards == old(cards) &&
        visible == old(visible) && shownItems == old(shownItems) && shownValue == old(shownValue)
    {
      outcome := UpdateVerdict(products, id, d);
      if outcome == Applied {
        var i := FindIndex(products, id).value;
        products := products[i := Merge(products[i], d, now)];
        SaveToStorage(now);
        RenderProducts();
        UpdateStats();
      }
    }

    /**
      `deleteProduct`: the first product holding `id` is removed, then the
      collection is saved and shown; an unknown id changes nothing.
    */
    method DeleteProduct(id: int, now: Timestamp) returns (removed: Option<Product>)
      modifies this`products, this`storage, this`cards, this`visible, this`shownItems, this`shownValue
      ensures products == AfterDelete(old(products), id)
      ensures removed.None? <==> FindIndex(old(products), id).None?
      ensures removed.Some? ==>
        removed.value == old(products)[FindIndex(old(products), id).value] && removed.value.id == id &&
        storage == Some(Snapshot(products, currentTheme, now)) &&
        Valid() && ShowsProducts() && ShowsStats()
      ensures removed.None? ==>
        products == old(products) && storage == old(storage) && cards == old(cards) &&
        visible == old(visible) && shownItems == old(shownItems) && shownValue == old(shownValue)
    {
      match FindIndex(products, id)
      case None =>
        removed := None;
      case Some(i) =>
        removed := Some(products[i]);
        products := products[..i] + products[i + 1..];
        SaveToStorage(now);
        RenderProducts();
        UpdateStats();
    }

    /** `editProduct`: the form switches to editing `id` when a product holds it. */
    method EditProduct(id: int)
      modifies this`editingId
      ensures FindIndex(products, id).Some? ==> editingId == Some(id)
      ensures FindIndex(products, id).None? ==> editingId == old(editingId)
    {
      if FindIndex(products, id).Some? {
        editingId := Some(id);
      }
    }

    /** `resetForm`: no product is being edited. */
    method ResetForm()
      modifies this`editingId
      ensures editingId.None?
    {
      editingId := None;
    }

    /** `cancelEdit`: the form is reset. */
    method CancelEdit()
      modifies this`editingId
      ensures editingId.None?
    {
      ResetForm();
    }

    /**
      `handleFormSubmit`: the form's draft, with its name trimmed, updates the
      product being edited, or is added under `freshId` when none is; then the
      form is reset.
    */
    method HandleFormSubmit(d: Draft, freshId: int, now: Timestamp) returns (outcome: Outcome)
      modifies this`products, this`storage, this`cards, this`visible, this`shownItems, this`shownValue, this`editingId
      ensures editingId.None?
      ensures IsEditing(old(editingId)) ==>
        outcome == UpdateVerdict(old(products), old(editingId).value, Submitted(d)) &&
        products == AfterUpdate(old(products), old(editingId).value, Submitted(d), now)
      ensures !IsEditing(old(editingId)) ==>
        outcome == AddVerdict(old(products), Submitted(d)) &&
        products == AfterAdd(old(products), Submitted(d), freshId, now)
      ensures outcome == Applied ==>
        storage == Some(Snapshot(products, currentTheme, now)) && Valid() && ShowsProducts() && ShowsStats()
      ensures outcome != Applied ==>
        products == old(products) && storage == old(storage) && cards == old(cards) &&
        visible == old(visible) && shownItems == old(shownItems) && shownValue == old(shownValue)
    {
      var draft := Submitted(d);
      if IsEditing(editingId) {
        outcome := UpdateProduct(editingId.value, draft, now);
      } else {
        outcome := AddProduct(draft, freshId, now);
      }
      ResetForm();
    }

    /** `applyFilters`: the cards show the filtered, sorted view, all displayed. */
    method ApplyFilters(category: string, sortValue: string)
      modifies this`cards, this`visible
      ensures cards == Views.ApplyFilters(products, category, Views.SortKeyOf(sortValue))
      ensures Valid() && visible == AllShown(|cards|)
    {
      cards := Views.ApplyFilters(products, category, Views.SortKeyOf(sortValue));
      visible := AllShown(|cards|);
    }

    /** `handleSearch`: each card is displayed exactly when its title matches the term. */
    method HandleSearch(term: string)
      requires Valid()
      modifies this`visible
      ensures Valid()
      ensures forall i :: 0 <= i < |cards| ==> visible[i] == Search.SearchMatches(cards[i], term)
    {
      var i := 0;
      while i < |cards|
        invariant 0 <= i <= |cards| && |visible| == |cards|
        invariant forall k :: 0 <= k < i ==> visible[k] == Search.SearchMatches(cards[k], term)
      {
        visible := visible[i := Search.SearchMatches(cards[i], term)];
        i := i + 1;
      }
    }

    /** `toggleTheme`: the other theme, on the page and on the toggle, then a save. */
    method ToggleTheme(now: Timestamp)
      modifies this`currentTheme, this`pageTheme, this`icon, this`storage
      ensures currentTheme == Toggled(old(currentTheme)) && pageTheme == currentTheme
      ensures icon == Icon(currentTheme)
      ensures storage == Some(Snapshot(products, currentTheme, now))
    {
      currentTheme := Toggled(currentTheme);
      pageTheme := currentTheme;
      icon := Icon(currentTheme);
      SaveToStorage(now);
    }
  }
}
