# Inventory manager: a verified model

This project models the core of a small browser inventory tracker. All of the
tracker lives in one class, `InventoryManager`, in `src/js/script.js`. The
class keeps:

- an ordered list of products, each with an id, name, quantity, price,
  category, creation time and optional update time;
- the id of the product being edited in the form;
- a colour theme chosen from the hour and switched by a toggle;
- a saved copy of the products and theme in a global store.

It validates the form's drafts in a fixed order. It refuses a new product whose
trimmed, lower-cased name is already taken. It updates and deletes the first
product holding an id. It renders a filtered and sorted view. It hides cards
whose title does not contain the search term, and it shows two totals.

The Dafny model is split by concern:

- `wrappers.dfy`: `Option`.
- `text.dfy`: `trim`, `toLowerCase`, `includes` and the name comparison.
- `catalog.dfy`: products, drafts and validation, plus the add, update and
  delete rules as functions on the list of products, and lemmas about them.
- `views.dfy`: the category filter and the stable sort of `applyFilters`.
- `search.dfy`: the card title text and the search match.
- `stats.dfy`: the two totals.
- `themes.dfy`: the theme chosen from the hour, the toggle and the button icon.
- `inventory.dfy`: the class `InventoryManager`. Its methods change the
  fields the source changes. Each one's `ensures` ties the new products to the
  Catalog functions and says what the page and the store hold afterwards.

Modelling choices:

- Prices are whole cents, so the stock value is an exact integer.
- Clock readings are integers supplied by the caller. This covers `Date.now()`
  used as the new id, the ISO time stamps, and the hour of the day.
- Saved data is a value of the datatype `Stored`, not JSON text. An entry that
  does not parse is the constructor `Unreadable`.

The model follows the code as written, including these behaviours one might not expect:

- `updateProduct` makes no duplicate-name check, so an update can give two
  products the same normalised name. `Catalog.UpdateCanDuplicateNames` shows
  this.
- The category is only required to be non-empty; any string passes.
- `if (this.editingId)` tests truthiness, so an editing id of 0 counts as
  "not editing" (`Inventory.IsEditing`).
- Loading saved data sets the theme without updating the page attribute or
  the toggle icon.

## Model

| member | source | states |
|---|---|---|
| `Catalog.ValidateProduct` | src/js/script.js:261-279 | The error reported is the first failing rule, in source order: name shorter than 2 UTF-16 code units, quantity below 1, negative price, empty category. A draft passes exactly when all four rules hold. |
| `Catalog.FindIndex` | src/js/script.js:225 | The result is the first position holding the id. None means no product holds it. |
| `Catalog.AddAppendsOne` | src/js/script.js:194-219 | A valid draft with an unused normalised name is appended as one new record. The record has the given id and creation time, no update time, and the draft's fields. The earlier records are unchanged. |
| `Catalog.AddRejectedIsNoOp` | src/js/script.js:195-206 | An invalid draft, or one whose normalised name is taken, leaves the list unchanged and is not reported as applied. |
| `Catalog.AddPreservesValid` | src/js/script.js:194-219 | Adding keeps every stored product valid. |
| `Catalog.AddPreservesDistinctNames` | src/js/script.js:197-206 | If no two products share a trimmed, lower-cased name before an add, none do after it. |
| `Catalog.AddedIsFound` | src/js/script.js:208-215 | After adding under an unused id, looking that id up finds the new record at the end. |
| `Catalog.AddRefusesVariantName` | src/js/script.js:197-206 | A name equal to a stored one up to ASCII case and surrounding blanks is never added. If the draft is otherwise valid, it is reported as a duplicate. |
| `Catalog.UpdateReplacesOne` | src/js/script.js:222-237 | A valid draft for a present id replaces only the first record holding it. That record keeps its id and creation time, takes the draft's fields and gets the update time. All other records and the length are unchanged. |
| `Catalog.UpdateRejectedIsNoOp` | src/js/script.js:223-226 | An invalid draft or an absent id leaves the list unchanged and is not reported as applied. |
| `Catalog.UpdateKeepsIdentity` | src/js/script.js:227-231 | An update never changes the length, any id or any creation time. |
| `Catalog.UpdatePreservesValid` | src/js/script.js:222-237 | An update keeps every stored product valid. |
| `Catalog.UpdateCanDuplicateNames` | src/js/script.js:222-237 | Starting from a list with distinct names, an update that renames "Cable" to "mouse" next to "Mouse" is applied and leaves two equal normalised names. |
| `Catalog.DeleteRemovesFirst` | src/js/script.js:239-249 | Deleting a present id removes exactly the first record holding it. The records before and after keep their order, and the multiset of records loses exactly that one. |
| `Catalog.DeleteAbsentIsNoOp` | src/js/script.js:240-241 | Deleting an absent id leaves the list unchanged. |
| `Catalog.DeletePreservesInvariants` | src/js/script.js:239-249 | Deletion keeps all products valid and the normalised names distinct. |
| `Catalog.DeleteLeavesLaterTwin` | src/js/script.js:240-243 | If two records share an id, deleting it removes only one, and the id is still found afterwards. |
| `Catalog.SampleData` | src/js/script.js:139-164 | The three sample records: AirPods Pro, Camiseta Deportiva and Libro de Programación, with ids 1 to 3, prices in cents and the creation days as epoch milliseconds. `Catalog.SampleDataValid`, `Catalog.SampleDataDistinct` and `Stats.SampleTotals` state their properties. |
| `Catalog.SampleDataValid` | src/js/script.js:138-166 | The three sample products all pass validation. |
| `Catalog.SampleDataDistinct` | src/js/script.js:138-166 | The sample products have pairwise distinct normalised names. |
| `Catalog.OneEmojiNamePasses` | src/js/script.js:262 | A name of a single character above the Basic Multilingual Plane has length 2 and passes the length rule. This holds for every such character, not one example. |
| `Catalog.OneLetterNameFails` | src/js/script.js:262 | A name of a single Basic Multilingual Plane character is refused as too short. |
| `Catalog.NameTaken` | src/js/script.js:197-201 | True when some stored product's trimmed, lower-cased name equals the draft's trimmed, lower-cased name. |
| `Catalog.NewProduct` | src/js/script.js:208-212 | The new record carries the given id and creation time, no update time, and exactly the draft's fields. |
| `Catalog.Merge` | src/js/script.js:227-231 | The merged record keeps the old id and creation time, takes the draft's fields and is stamped with the update time. |
| `Catalog.AddVerdict` | src/js/script.js:194-206 | An add is applied exactly when the draft is valid and its normalised name is free. It is a duplicate exactly when the draft is valid and the name is taken. It is never "absent". An invalid draft is rejected with the error `Catalog.ValidateProduct` reports for it, the first failing rule. |
| `Catalog.AfterAdd` | src/js/script.js:194-219 | The list after an add is either unchanged, or the old list plus one record with the given id at the end. |
| `Catalog.UpdateVerdict` | src/js/script.js:222-226 | An update is applied exactly when the draft is valid and the id is present. It is "absent" exactly when the draft is valid and the id is not present. It is never a duplicate. An invalid draft is rejected with the error `Catalog.ValidateProduct` reports for it, the first failing rule. |
| `Catalog.AfterUpdate` | src/js/script.js:222-237 | An update never changes the length of the list. |
| `Catalog.AfterDelete` | src/js/script.js:239-249 | Deleting an absent id leaves the list as it was. Deleting a present one shortens it by one. |
| `Catalog.SpliceCounts` | src/js/script.js:243 | Splicing out one position removes exactly that element from the multiset. |
| `Text.Utf16Length` | src/js/script.js:262 | The length counts one unit per Basic Multilingual Plane character and two per character above it, so it lies between the number of characters and twice that. |
| `Text.Utf16LengthOfBmp` | src/js/script.js:262 | For text of the Basic Multilingual Plane the length equals the number of characters. |
| `Text.Lower` | src/js/script.js:197-200 | Lower-casing keeps the length. |
| `Text.Normalize` | src/js/script.js:197-200 | The duplicate key (trim, then lower-case) is no longer than the name and has no blank at either end. |
| `Text.Trim` | src/js/script.js:177 | The result is no longer than the input and has no blank at either end. |
| `Text.TrimIsSlice` | src/js/script.js:177 | The trimmed string is a slice of the input with only blanks around it. |
| `Text.TrimUnique` | src/js/script.js:177 | Any slice with only blanks around it and no blank at its own ends is the trim. |
| `Text.TrimIdempotent` | src/js/script.js:197 | Trimming twice gives the same result as trimming once. |
| `Text.TrimLowerCommute` | src/js/script.js:197-200 | Trimming then lower-casing equals lower-casing then trimming. |
| `Text.LowerIdempotent` | src/js/script.js:377-378 | Lower-casing twice gives the same result as lower-casing once. |
| `Text.LowerAppend` | src/js/script.js:377 | Lower-casing distributes over concatenation. |
| `Text.NormalizeIgnoresCase` | src/js/script.js:197-200 | Names equal up to ASCII case have the same normal form. |
| `Text.NormalizeIgnoresPadding` | src/js/script.js:197-200 | Blanks around a name do not change its normal form. |
| `Text.NormalizeIdempotent` | src/js/script.js:197-200 | A normalised name is already normal. |
| `Text.Contains` | src/js/script.js:378 | The result is true exactly when the part occurs at some position of the string. |
| `Text.ContainsInside` | src/js/script.js:378 | Text found in a string is also found in any string that contains it. |
| `Text.LexCompare` | src/js/script.js:398 | The name comparator returns -1, 0 or 1. |
| `Text.LexCompareAntisymmetric` | src/js/script.js:398 | Swapping the arguments negates the result. |
| `Text.LexCompareZero` | src/js/script.js:398 | The result is 0 exactly when the names are equal. |
| `Text.LexCompareTransitive` | src/js/script.js:398 | The "not after" relation is transitive. |
| `Views.SortKeyOf` | src/js/script.js:396-405 | "name" selects the name key, "price" the price key and "quantity" the quantity key, each exactly. Every other selector value falls to the default case, which sorts nothing. |
| `Views.Compare` | src/js/script.js:395-405 | The comparator compares names for "name", price minus price for "price", the reversed quantity difference for "quantity", and returns 0 for anything else. `Views.PrecedesTotal` and `Views.PrecedesTransitive` state its properties. |
| `Views.PrecedesTotal` | src/js/script.js:395-405 | For every key, any two products can be ordered one way or the other. |
| `Views.PrecedesTransitive` | src/js/script.js:395-405 | For every key, the comparator's order is transitive. |
| `Views.Insert` | src/js/script.js:395 | Inserting adds exactly that product to the multiset. |
| `Views.Sort` | src/js/script.js:395 | Sorting is a permutation. |
| `Views.InsertSorted` | src/js/script.js:395 | Inserting into a sorted list keeps it sorted. |
| `Views.SortSorted` | src/js/script.js:395-405 | The sorted list is ordered by the comparator. |
| `Views.SortedIsFixpoint` | src/js/script.js:395 | An already sorted list stays as it is. |
| `Views.SortIdempotent` | src/js/script.js:395 | Sorting twice gives the same list as sorting once. |
| `Views.UnsortedKeepsOrder` | src/js/script.js:403-404 | A comparator that always returns 0 leaves the order unchanged, because the sort is stable. |
| `Views.FilterByCategory` | src/js/script.js:389-392 | Every kept product is in the chosen category. No category keeps the whole list. |
| `Views.FilterCounts` | src/js/script.js:391 | Each product of the category is kept as often as it is stored. No other product is kept. |
| `Views.FilterAppend` | src/js/script.js:391 | Filtering keeps relative order, because it distributes over concatenation. |
| `Views.SortedMeans` | src/js/script.js:397-402 | Sorted means names ascending, prices ascending, or quantities descending, depending on the key. |
| `Views.SortKeepsSelection` | src/js/script.js:387-405 | Sorting the filtered copy keeps each product's count from the filter. |
| `Views.ApplyFilters` | src/js/script.js:383-411 | The view holds exactly the category's products, each as often as stored, ordered by the key. With no key it keeps stored order. With no key and no category it is the whole list. |
| `Search.CategoryEmoji` | src/js/script.js:298-304 | The emoji text is empty exactly for the five known categories. For any other category it is "undefined". |
| `Search.CardLabel` | src/js/script.js:318 | A card's title ends with a space and then the product name. For a known category it is exactly that. |
| `Search.SearchMatches` | src/js/script.js:377-378 | A card is displayed when its lower-cased title contains the lower-cased term. The Search lemmas state what this implies. |
| `Search.LowerLabel` | src/js/script.js:377 | The lower-cased title is the lower-cased emoji, a space and the lower-cased name. |
| `Search.NameMatchIsVisible` | src/js/script.js:374-381 | A term found in the name, ignoring case, leaves the card displayed. |
| `Search.KnownCategorySearch` | src/js/script.js:374-381 | For a known category the search looks at a space followed by the lower-cased name, and nothing else. |
| `Search.EmptyTermShowsAll` | src/js/script.js:378 | An empty term displays every card. |
| `Search.SpaceShowsAll` | src/js/script.js:318 | A single space displays every card, because every title contains a space. |
| `Search.SearchIgnoresTermCase` | src/js/script.js:378 | Terms equal up to case display the same cards. |
| `Search.SearchIgnoresNameCase` | src/js/script.js:377 | Products whose names are equal up to case are displayed for the same terms. |
| `Search.UnknownCategoryShowsForUndefined` | src/js/script.js:318 | A product whose category is not in the table is displayed for the term "undefined". |
| `Stats.TotalItems` | src/js/script.js:416 | The item count is the left-to-right sum of the quantities from 0. The Stats lemmas state its properties. |
| `Stats.TotalValue` | src/js/script.js:417 | The stock value is the left-to-right sum of price times quantity from 0, in cents. The Stats lemmas state its properties. |
| `Stats.TotalsAppend` | src/js/script.js:416-417 | The totals of two lists placed one after the other add up. |
| `Stats.TotalsOne` | src/js/script.js:416-417 | A single product contributes its quantity and its price times quantity. |
| `Stats.TotalsPermutation` | src/js/script.js:416-417 | The totals depend only on which products are stored, not on their order. |
| `Stats.TotalsOfValid` | src/js/script.js:416-417 | For valid products the item count is at least the number of products, and the value is not negative. |
| `Stats.TotalsAfterAdd` | src/js/script.js:194-219 | An add raises the totals by the new product's figures, or changes nothing. |
| `Stats.TotalsAfterDelete` | src/js/script.js:239-249 | A delete lowers the totals by the removed product's figures, or changes nothing. |
| `Stats.TotalsAfterUpdate` | src/js/script.js:222-237 | An update replaces the old product's figures with the draft's, or changes nothing. |
| `Stats.SampleTotals` | src/js/script.js:138-166 | The sample data totals 45 items worth 793220 cents. |
| `Stats.ViewTotals` | src/js/script.js:383-421 | A view of all categories in any sort order has the same totals as the whole inventory. |
| `Themes.ThemeForHour` | src/js/script.js:21-25 | The theme is dark exactly from 6:00 up to but not including 18:00, and light otherwise. |
| `Themes.Toggled` | src/js/script.js:426 | Toggling always changes the theme. |
| `Themes.ToggleTwice` | src/js/script.js:426 | Toggling twice restores the theme. |
| `Themes.Icon` | src/js/script.js:30-31 | The moon is shown exactly for the dark theme, and the sun exactly for the light one. |
| `Themes.IconShowsTheme` | src/js/script.js:30-31 | Different themes get different icons. |
| `Themes.ToggleIconAsWritten` | src/js/script.js:428 | As written, the toggle shows the sun exactly for the dark theme. |
| `Themes.ToggleIconDisagrees` | src/js/script.js:428 | For every theme, the toggle shows a different icon from the one start-up shows. |
| `Themes.ToggleIconAfterTwoToggles` | src/js/script.js:21-31 | Starting dark and toggling twice returns to the dark theme, but the icon is not the one start-up showed. |
| `Inventory.Snapshot` | src/js/script.js:38-46 | The saved entry is readable and carries the save time. |
| `Inventory.Restore` | src/js/script.js:56-72 | A missing or unparsable entry yields nothing, which leads to the sample data. Otherwise the saved products are used, or an empty list when absent. The saved theme is used, or dark when absent. |
| `Inventory.SaveThenLoad` | src/js/script.js:38-72 | Loading what was saved gives back the same products and theme. |
| `Inventory.AllShown` | src/js/script.js:283-295 | Freshly rendered cards are all displayed. |
| `Inventory.IsEditing` | src/js/script.js:183 | The form counts as editing exactly when the editing id is set and is not 0, the truthiness test of the source. |
| `Inventory.Submitted` | src/js/script.js:175-181 | The submitted draft is the form's draft with its name trimmed. |
| `Inventory.InventoryManager.constructor` | src/js/script.js:3-19 | Start-up sets the theme from the hour, then loads the saved data or the sample data (saving the latter), then renders the cards and totals. No product is being edited. |
| `Inventory.InventoryManager.SetThemeByTime` | src/js/script.js:21-33 | The theme, the page attribute and the icon come from the hour. |
| `Inventory.InventoryManager.SaveToStorage` | src/js/script.js:38-54 | The stored entry becomes the current products and theme, and loads back to them. |
| `Inventory.InventoryManager.LoadSampleData` | src/js/script.js:138-166 | The list becomes the valid, distinct sample data, which is saved. |
| `Inventory.InventoryManager.LoadFromStorage` | src/js/script.js:56-72 | A readable entry gives the products and theme and leaves the store as it was. Otherwise the sample data is loaded and saved, and the theme is kept. |
| `Inventory.InventoryManager.RenderProducts` | src/js/script.js:283-295 | The cards become the products in stored order, all displayed. |
| `Inventory.InventoryManager.UpdateStats` | src/js/script.js:415-421 | The displayed totals become those of the products. |
| `Inventory.InventoryManager.ClearAllData` | src/js/script.js:74-80 | The list is emptied, saved and rendered, and the totals become 0. |
| `Inventory.InventoryManager.AddProduct` | src/js/script.js:194-219 | Reports the verdict of the add rule and changes the list accordingly. When applied, the list is saved, rendered and totalled. Otherwise no field changes. |
| `Inventory.InventoryManager.UpdateProduct` | src/js/script.js:222-237 | Reports the verdict of the update rule and merges the draft into the first matching record. When applied, the list is saved, rendered and totalled. Otherwise no field changes. |
| `Inventory.InventoryManager.DeleteProduct` | src/js/script.js:239-249 | Returns the removed record (the first one holding the id), or none exactly when the id is absent. When a record is removed, the list is saved, rendered and totalled. |
| `Inventory.InventoryManager.EditProduct` | src/js/script.js:251-259 | The editing id becomes the given id exactly when some product holds it. |
| `Inventory.InventoryManager.ResetForm` | src/js/script.js:345-350 | No product is being edited. |
| `Inventory.InventoryManager.CancelEdit` | src/js/script.js:352-355 | No product is being edited. |
| `Inventory.InventoryManager.HandleFormSubmit` | src/js/script.js:170-192 | The trimmed draft updates the product being edited when the editing id is set and not 0. Otherwise it is added under the fresh id. Either way the form is then reset. |
| `Inventory.InventoryManager.ApplyFilters` | src/js/script.js:383-411 | The cards become the filtered, sorted view, all displayed. |
| `Inventory.InventoryManager.HandleSearch` | src/js/script.js:374-381 | Each card is displayed exactly when its title matches the term. |
| `Inventory.InventoryManager.ToggleTheme` | src/js/script.js:425-430 | The theme flips on the page and the icon follows the theme (see Findings). The entry is saved with the new theme. |

## Left out

- The DOM is reduced to the fields the methods write: the cards, their display flags, the two totals, the theme attribute and the toggle icon. This leaves out the HTML of each card, the form fields (`fillForm`), the submit button text, the loading state and the cancel button.
- Event wiring (`setupEventListeners`), the background particles (`createParticles`) and the notifications (`showNotification`) are user-interface effects without state the model reads.
- The confirmation dialogs (`showModal`, `hideModal`, `showDeleteConfirmation`, `showClearAllConfirmation`) are left out. A confirmed dialog calls `DeleteProduct` or `ClearAllData`, which are modelled.
- The one-second delay before a submitted form is processed is left out. `HandleFormSubmit` acts at once.
- JSON encoding is left out: the store holds values. A write failure in `saveToStorage` cannot happen to these values, and a theme string other than "dark" or "light" in saved data is not represented.
- Prices are whole cents, not floating-point numbers. `parseInt` and `parseFloat` of bad input (NaN) are not represented, and neither is the `toFixed(2)` formatting of the value.
- `localeCompare` is modelled as a comparison by character code. Locale collation is outside the model.
- `toLowerCase` covers ASCII letters only. The model's `trim` removes a fixed blank set: space, tab, line feed, carriage return, vertical tab, form feed, no-break space and byte-order mark. JavaScript's `trim` also removes U+1680, U+2000 to U+200A, U+2028, U+2029, U+202F, U+205F and U+3000, so for example "Mouse" followed by U+3000 is a duplicate of "Mouse" in the browser but not in the model.
- Dates and times are caller-supplied integers. The model does not check that the sample data's dates match the source's ISO day strings.
- Views.ApplyFilters: stability of the sort is stated only for the default key. For the other keys the contract states a sorted permutation, not that ties keep their stored order.
- Inventory.InventoryManager.ToggleTheme: the icon follows the corrected rule of `Themes.Icon`, not the line as written (see Findings).
- Search.CardLabel: the title is taken to be the emoji, a space and the raw name. The source writes the card as HTML and reads the title back as text, so a name containing markup such as `<` or a character reference such as `&amp;` is not represented: its text on the page differs from the name. The model assumes names contain neither `<` nor `&`.
- Search.CategoryEmoji: an unlisted category renders as "undefined". The source looks the category up in a plain object, so a category named after an inherited object member, such as "toString" or "__proto__", renders that member's text and is not represented. The model assumes categories are not such names.
- Search.NameMatchIsVisible: holds only for names without markup or character references, as stated under Search.CardLabel.
- Search.KnownCategorySearch: holds only for names without markup or character references, as stated under Search.CardLabel.
- Search.UnknownCategoryShowsForUndefined: holds only for categories that are not inherited object member names, as stated under Search.CategoryEmoji.

## Findings

| source | as written | input that shows it | evidently intended | confidence | as-written member | corrected member |
|---|---|---|---|---|---|---|
| src/js/script.js:428 | `toggleTheme` writes the sun for the dark theme and the moon for the light one. `setThemeByTime` (line 31) does the opposite. | Start between 6:00 and 18:00 (dark theme, moon shown) and toggle twice: the theme is dark again but the sun is shown. | The icon depends only on the theme, the same way in both code paths. | medium, not executed | `Themes.ToggleIconAsWritten` (`Themes.ToggleIconDisagrees`, `Themes.ToggleIconAfterTwoToggles`) | `Themes.Icon` (`Themes.IconShowsTheme`), used by `Inventory.InventoryManager.ToggleTheme` |
