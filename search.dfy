/**
  The live search of the product list. `handleSearch` does not look at the
  products themselves: it reads the text of each rendered card's title, which
  `createProductCard` writes as the category's emoji, a space and the product's
  name, and shows the card when that text, lower-cased, contains the lower-cased
  search term. The emoji table maps each of the five known categories to an
  empty string, and a category missing from the table renders as the text
  "undefined".
*/
module Search {
  import Text
  import opened Catalog

  /** The five categories the emoji and name tables know. */
  predicate KnownCategory(category: string) {
    category == "electronics" || category == "clothing" || category == "books" || category == "home" || category == "sports"
  }

  /** `${categoryEmojis[category]}`: empty for a known category, "undefined" for any other. */
  function CategoryEmoji(category: string): (e: string)
    ensures KnownCategory(category) <==> e == []
    ensures !KnownCategory(category) ==> e == "undefined"
  {
    if KnownCategory(category) then "" else "undefined"
  }

  /** The text of a card's title: the emoji, a space, the name. */
  function CardLabel(p: Product): (l: string)
    ensures |l| > |p.name|
    ensures l[|l| - |p.name|..] == p.name
    ensures l[|l| - |p.name| - 1] == ' '
    ensures KnownCategory(p.category) ==> l == " " + p.name
  {
    CategoryEmoji(p.category) + " " + p.name
  }

  /** Whether `handleSearch` leaves the card of `p` visible for `term`. */
  predicate SearchMatches(p: Product, term: string) {
    Text.Contains(Text.Lower(CardLabel(p)), Text.Lower(term))
  }

  /** The lower-cased label is the lower-cased emoji, a space and the lower-cased name. */
  lemma LowerLabel(p: Product)
    ensures Text.Lower(CardLabel(p)) == Text.Lower(CategoryEmoji(p.category)) + " " + Text.Lower(p.name)
  {
    Text.LowerAppend(CategoryEmoji(p.category) + " ", p.name);
    Text.LowerAppend(CategoryEmoji(p.category), " ");
    assert Text.Lower(" ") == " ";
  }

  /** A term found in the name, ignoring case, keeps the card visible. */
  lemma NameMatchIsVisible(p: Product, term: string)
    requires Text.Contains(Text.Lower(p.name), Text.Lower(term))
    ensures SearchMatches(p, term)
  {
    LowerLabel(p);
    Text.ContainsInside(Text.Lower(CategoryEmoji(p.category)) + " ", Text.Lower(p.name), "", Text.Lower(term));
    assert Text.Lower(CategoryEmoji(p.category)) + " " + Text.Lower(p.name) + "" == Text.Lower(CardLabel(p));
  }

  /** For a known category the search looks exactly at a space followed by the name. */
  lemma KnownCategorySearch(p: Product, term: string)
    requires KnownCategory(p.category)
    ensures SearchMatches(p, term) <==> Text.Contains(" " + Text.Lower(p.name), Text.Lower(term))
  {
    LowerLabel(p);
  }

  /** An empty search box shows every card. */
  lemma EmptyTermShowsAll(p: Product)
    ensures SearchMatches(p, "")
  {
    assert Text.OccursAt(Text.Lower(CardLabel(p)), Text.Lower(""), 0);
  }

  /** A single space shows every card too, because every title has a space before the name. */
  lemma SpaceShowsAll(p: Product)
    ensures SearchMatches(p, " ")
  {
    var l := Text.Lower(CardLabel(p));
    var k := |CardLabel(p)| - |p.name| - 1;
    assert Text.Lower(" ") == " ";
    assert l[k..k + 1] == [Text.LowerChar(' ')];
    assert Text.OccursAt(l, Text.Lower(" "), k);
  }

  /** The case of the search term does not matter. */
  lemma SearchIgnoresTermCase(p: Product, a: string, b: string)
    requires Text.Lower(a) == Text.Lower(b)
    ensures SearchMatches(p, a) <==> SearchMatches(p, b)
  {
  }

  /** The case of the product's name does not matter either. */
  lemma SearchIgnoresNameCase(p: Product, q: Product, term: string)
    requires p.category == q.category && Text.Lower(p.name) == Text.Lower(q.name)
    ensures SearchMatches(p, term) <==> SearchMatches(q, term)
  {
    LowerLabel(p);
    LowerLabel(q);
  }

  /** A card whose category is not in the table shows for the term "undefined", whatever its name. */
  lemma UnknownCategoryShowsForUndefined(p: Product)
    requires !KnownCategory(p.category)
    ensures SearchMatches(p, "undefined")
  {
    var u := "undefined";
    assert Text.Lower(u) == u by {
      forall k | 0 <= k < |u| ensures Text.LowerChar(u[k]) == u[k] {
      }
    }
    LowerLabel(p);
    Text.ContainsInside([], u, " " + Text.Lower(p.name), u);
    assert Text.OccursAt(u, u, 0);
    assert [] + u + (" " + Text.Lower(p.name)) == Text.Lower(CardLabel(p));
  }
}
