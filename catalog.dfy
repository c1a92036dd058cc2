/**
  The product collection of the inventory as values: what a product and a form
  draft are, the validation rules, and what adding, updating and deleting do to
  the ordered list of products. The class in module Inventory applies these to
  its `products` field.
*/
module Catalog {
  import opened Wrappers
  import Text

  /** A clock reading (the source stores ISO date strings; here an abstract number supplied by the caller). */
  type Timestamp = int

  /** The four fields the form submits. Prices are in cents. */
  datatype Draft = Draft(name: string, quantity: int, price: int, category: string)

  /** A stored product: its id, the draft's fields, the creation time and the time of the last update. */
  datatype Product = Product(
    id: int,
    name: string,
    quantity: int,
    price: int,
    category: string,
    createdAt: Timestamp,
    updatedAt: Option<Timestamp>)

  /** The rule a draft failed, one per error message of the validation. */
  datatype FieldError = NameTooShort | QuantityTooSmall | NegativePrice | MissingCategory

  /** What an operation reports back to the user. */
  datatype Outcome = Rejected(error: FieldError) | Duplicate | Absent | Applied

  /** The rules of `validateProduct` in order; the first one that fails is reported. */
  function ValidateProduct(d: Draft): (r: Option<FieldError>)
    ensures r == Some(NameTooShort) <==> Text.Utf16Length(d.name) < 2
    ensures r == Some(QuantityTooSmall) <==> Text.Utf16Length(d.name) >= 2 && d.quantity < 1
    ensures r == Some(NegativePrice) <==> Text.Utf16Length(d.name) >= 2 && d.quantity >= 1 && d.price < 0
    ensures r == Some(MissingCategory) <==> Text.Utf16Length(d.name) >= 2 && d.quantity >= 1 && d.price >= 0 && d.category == []
    ensures r == None <==> Text.Utf16Length(d.name) >= 2 && d.quantity >= 1 && d.price >= 0 && d.category != []
  {
    if Text.Utf16Length(d.name) < 2 then Some(NameTooShort)
    else if d.quantity < 1 then Some(QuantityTooSmall)
    else if d.price < 0 then Some(NegativePrice)
    else if d.category == [] then Some(MissingCategory)
    else None
  }

  /** A name of one character above the Basic Multilingual Plane is two code units long, which the length rule accepts. */
  lemma OneEmojiNamePasses(c: char)
    requires (c as int) >= 0x10000
    ensures Text.Utf16Length([c]) == 2
    ensures ValidateProduct(Draft([c], 1, 0, "books")) == None
  {
    assert [c][1..] == [];
  }

  /** A name of one Basic Multilingual Plane character is refused as too short. */
  lemma OneLetterNameFails(c: char)
    requires (c as int) < 0x10000
    ensures ValidateProduct(Draft([c], 1, 0, "books")) == Some(NameTooShort)
  {
    Text.Utf16LengthOfBmp([c]);
  }

  /** The fields of a stored product, as a draft. */
  function DraftOf(p: Product): Draft {
    Draft(p.name, p.quantity, p.price, p.category)
  }

  /** A stored product whose fields would pass validation. */
  predicate ValidProduct(p: Product) {
    ValidateProduct(DraftOf(p)) == None
  }

  ghost predicate AllValid(s: seq<Product>) {
    forall i :: 0 <= i < |s| ==> ValidProduct(s[i])
  }

  /** No two products share a normalised name. */
  ghost predicate DistinctNames(s: seq<Product>) {
    forall i, j :: 0 <= i < j < |s| ==> Text.Normalize(s[i].name) != Text.Normalize(s[j].name)
  }

  /** Some product's normalised name equals the normalised `name` (the duplicate test of `addProduct`). */
  predicate NameTaken(s: seq<Product>, name: string) {
    exists i :: 0 <= i < |s| && Text.Normalize(s[i].name) == Text.Normalize(name)
  }

  /** `findIndex(p => p.id === id)`: the first position holding `id`, or none. */
  function FindIndex(s: seq<Product>, id: int): (r: Option<nat>)
    ensures r.Some? ==> r.value < |s| && s[r.value].id == id
    ensures r.Some? ==> forall j :: 0 <= j < r.value ==> s[j].id != id
    ensures r.None? <==> forall j :: 0 <= j < |s| ==> s[j].id != id
  {
    if s == [] then None
    else if s[0].id == id then Some(0)
    else match FindIndex(s[1..], id)
      case None => None
      case Some(i) => Some(i + 1)
  }

  /** The record `addProduct` builds: the given id and creation time, the draft's fields, never updated. */
  function NewProduct(d: Draft, id: int, now: Timestamp): (r: Product)
    ensures r.id == id && r.createdAt == now && r.updatedAt.None? && DraftOf(r) == d
  {
    Product(id, d.name, d.quantity, d.price, d.category, now, None)
  }

  /** `{...p, ...draft, updatedAt}`: the draft's fields over `p`, keeping its id and creation time. */
  function Merge(p: Product, d: Draft, now: Timestamp): (r: Product)
    ensures r.id == p.id && r.createdAt == p.createdAt && DraftOf(r) == d && r.updatedAt == Some(now)
  {
    p.(name := d.name, quantity := d.quantity, price := d.price, category := d.category, updatedAt := Some(now))
  }

  /** What `addProduct` reports for `d` against the collection `s`. */
  function AddVerdict(s: seq<Product>, d: Draft): (r: Outcome)
    ensures r != Absent
    ensures r == Applied <==> ValidateProduct(d) == None && !NameTaken(s, d.name)
    ensures r == Duplicate <==> ValidateProduct(d) == None && NameTaken(s, d.name)
    ensures ValidateProduct(d).Some? ==> r == Rejected(ValidateProduct(d).value)
  {
    match ValidateProduct(d)
    case Some(e) => Rejected(e)
    case None => if NameTaken(s, d.name) then Duplicate else Applied
  }

  /** The collection after `addProduct`. */
  function AfterAdd(s: seq<Product>, d: Draft, id: int, now: Timestamp): (r: seq<Product>)
    ensures r == s || (|r| == |s| + 1 && r[..|s|] == s && r[|s|].id == id)
  {
    if AddVerdict(s, d) == Applied then s + [NewProduct(d, id, now)] else s
  }

  /** What `updateProduct` reports. */
  function UpdateVerdict(s: seq<Product>, id: int, d: Draft): (r: Outcome)
    ensures r != Duplicate
    ensures r == Applied <==> ValidateProduct(d) == None && FindIndex(s, id).Some?
    ensures r == Absent <==> ValidateProduct(d) == None && FindIndex(s, id).None?
    ensures ValidateProduct(d).Some? ==> r == Rejected(ValidateProduct(d).value)
  {
    match ValidateProduct(d)
    case Some(e) => Rejected(e)
    case None => if FindIndex(s, id).None? then Absent else Applied
  }

  /** The collection after `updateProduct`: the draft merged into the first record holding `id`. */
  function AfterUpdate(s: seq<Product>, id: int, d: Draft, now: Timestamp): (r: seq<Product>)
    ensures |r| == |s|
  {
    if ValidateProduct(d).Some? then s
    else match FindIndex(s, id)
      case None => s
      case Some(i) => s[i := Merge(s[i], d, now)]
  }

  /** The collection after `deleteProduct`: the first record holding `id` spliced out. */
  function AfterDelete(s: seq<Product>, id: int): (r: seq<Product>)
    ensures FindIndex(s, id).None? ==> r == s
    ensures FindIndex(s, id).Some? ==> |r| == |s| - 1
  {
    match FindIndex(s, id)
    case None => s
    case Some(i) => s[..i] + s[i + 1..]
  }

  /** The three products `loadSampleData` installs (prices in cents, creation days as epoch milliseconds). */
  function SampleData(): seq<Product> {
    [ Product(1, "AirPods Pro", 5, 129999, "electronics", 1705276800000, None),
      Product(2, "Camiseta Deportiva", 25, 2999, "clothing", 1705363200000, None),
      Product(3, "Libro de Programación", 15, 4550, "books", 1705449600000, None) ]
  }

  // ----- Add -----------------------------------------------------------------

  /** An accepted draft is appended as exactly one new record at the end; the earlier records are unchanged. */
  lemma AddAppendsOne(s: seq<Product>, d: Draft, id: int, now: Timestamp)
    requires ValidateProduct(d) == None && !NameTaken(s, d.name)
    ensures var r := AfterAdd(s, d, id, now);
      && |r| == |s| + 1 && r[..|s|] == s
      && r[|s|].id == id && r[|s|].createdAt == now && r[|s|].updatedAt == None
      && DraftOf(r[|s|]) == d
  {
  }

  /** An invalid or duplicate draft leaves the collection as it was. */
  lemma AddRejectedIsNoOp(s: seq<Product>, d: Draft, id: int, now: Timestamp)
    requires ValidateProduct(d).Some? || NameTaken(s, d.name)
    ensures AfterAdd(s, d, id, now) == s
    ensures AddVerdict(s, d) != Applied
  {
  }

  /** Adding keeps every stored product valid. */
  lemma AddPreservesValid(s: seq<Product>, d: Draft, id: int, now: Timestamp)
    requires AllValid(s)
    ensures AllValid(AfterAdd(s, d, id, now))
  {
  }

  /** Adding keeps normalised names distinct: the duplicate check guards exactly this. */
  lemma AddPreservesDistinctNames(s: seq<Product>, d: Draft, id: int, now: Timestamp)
    requires DistinctNames(s)
    ensures DistinctNames(AfterAdd(s, d, id, now))
  {
    var r := AfterAdd(s, d, id, now);
    if AddVerdict(s, d) == Applied {
      forall i, j | 0 <= i < j < |r|
        ensures Text.Normalize(r[i].name) != Text.Normalize(r[j].name)
      {
        if j == |s| {
          assert r[i] == s[i];
        }
      }
    }
  }

  /** When the new id is not in use, looking it up afterwards finds the new record at the end. */
  lemma AddedIsFound(s: seq<Product>, d: Draft, id: int, now: Timestamp)
    requires AddVerdict(s, d) == Applied
    requires forall j :: 0 <= j < |s| ==> s[j].id != id
    ensures FindIndex(AfterAdd(s, d, id, now), id) == Some(|s|)
  {
    var r := AfterAdd(s, d, id, now);
    assert r[|s|].id == id;
  }

  /**
    A draft whose name is an existing product's name up to case and surrounding
    blanks (say "mouse " against "Mouse") is never added; when it is otherwise
    valid it is reported as a duplicate.
  */
  lemma AddRefusesVariantName(s: seq<Product>, d: Draft, id: int, now: Timestamp,
                              i: nat, pre: string, x: string, post: string)
    requires i < |s| && d.name == pre + x + post && Text.Lower(x) == Text.Lower(s[i].name)
    requires forall k :: 0 <= k < |pre| ==> Text.IsSpace(pre[k])
    requires forall k :: 0 <= k < |post| ==> Text.IsSpace(post[k])
    ensures AfterAdd(s, d, id, now) == s
    ensures ValidateProduct(d) == None ==> AddVerdict(s, d) == Duplicate
  {
    Text.NormalizeIgnoresPadding(pre, x, post);
    Text.NormalizeIgnoresCase(x, s[i].name);
    assert NameTaken(s, d.name);
  }

  // ----- Update --------------------------------------------------------------

  /**
    A valid draft for a present id replaces exactly the first record holding it:
    that record keeps its id and creation time, takes the draft's fields and is
    stamped with the update time; every other record and the length are unchanged.
  */
  lemma UpdateReplacesOne(s: seq<Product>, id: int, d: Draft, now: Timestamp, i: nat)
    requires ValidateProduct(d) == None && FindIndex(s, id) == Some(i)
    ensures var r := AfterUpdate(s, id, d, now);
      && |r| == |s|
      && r[i].id == s[i].id == id && r[i].createdAt == s[i].createdAt
      && DraftOf(r[i]) == d && r[i].updatedAt == Some(now)
      && (forall j :: 0 <= j < |s| && j != i ==> r[j] == s[j])
  {
  }

  /** An invalid draft, or an id that is not present, leaves the collection as it was. */
  lemma UpdateRejectedIsNoOp(s: seq<Product>, id: int, d: Draft, now: Timestamp)
    requires ValidateProduct(d).Some? || forall j :: 0 <= j < |s| ==> s[j].id != id
    ensures AfterUpdate(s, id, d, now) == s
    ensures UpdateVerdict(s, id, d) != Applied
  {
  }

  /** Updating never changes any record's id or creation time, nor the length. */
  lemma UpdateKeepsIdentity(s: seq<Product>, id: int, d: Draft, now: Timestamp)
    ensures var r := AfterUpdate(s, id, d, now);
      |r| == |s| && forall j :: 0 <= j < |s| ==> r[j].id == s[j].id && r[j].createdAt == s[j].createdAt
  {
  }

  /** Updating keeps every stored product valid, since the draft was validated. */
  lemma UpdatePreservesValid(s: seq<Product>, id: int, d: Draft, now: Timestamp)
    requires AllValid(s)
    ensures AllValid(AfterUpdate(s, id, d, now))
  {
  }

  /**
    `updateProduct` performs no duplicate check: renaming one product to another
    product's name (up to case) is accepted and leaves two equal normalised names.
  */
  lemma UpdateCanDuplicateNames()
    ensures var s := [Product(1, "Mouse", 3, 1999, "electronics", 0, None),
                      Product(2, "Cable", 4, 500, "electronics", 0, None)];
      && DistinctNames(s)
      && UpdateVerdict(s, 2, Draft("mouse", 4, 500, "electronics")) == Applied
      && !DistinctNames(AfterUpdate(s, 2, Draft("mouse", 4, 500, "electronics"), 7))
  {
    var s := [Product(1, "Mouse", 3, 1999, "electronics", 0, None),
              Product(2, "Cable", 4, 500, "electronics", 0, None)];
    Text.NormalizeDiffersByInitial(s[0].name, s[1].name);
    DistinctNamesOfTwo(s);
    var r := AfterUpdate(s, 2, Draft("mouse", 4, 500, "electronics"), 7);
    assert Text.Lower(r[0].name) == Text.Lower(r[1].name);
    Text.NormalizeIgnoresCase(r[0].name, r[1].name);
  }

  lemma DistinctNamesOfTwo(s: seq<Product>)
    requires |s| == 2 && Text.Normalize(s[0].name) != Text.Normalize(s[1].name)
    ensures DistinctNames(s)
  {
    forall i, j | 0 <= i < j < |s| ensures Text.Normalize(s[i].name) != Text.Normalize(s[j].name) {
      assert i == 0 && j == 1;
    }
  }

  // ----- Delete --------------------------------------------------------------

  /**
    Deleting a present id removes exactly the first record holding it: the length
    drops by one, the records before and after it keep their relative order, and
    the multiset of records loses exactly that one.
  */
  lemma DeleteRemovesFirst(s: seq<Product>, id: int, i: nat)
    requires FindIndex(s, id) == Some(i)
    ensures var r := AfterDelete(s, id);
      && |r| == |s| - 1
      && r[..i] == s[..i] && r[i..] == s[i + 1..]
      && multiset(r) == multiset(s) - multiset{s[i]}
  {
    var r, front, back := AfterDelete(s, id), s[..i], s[i + 1..];
    assert r == front + back;
    assert r[..i] == front && r[i..] == back;
    SpliceCounts(s, i);
  }

  /** Splicing out position `i` takes exactly that element out of the multiset. */
  lemma SpliceCounts(s: seq<Product>, i: nat)
    requires i < |s|
    ensures multiset(s[..i] + s[i + 1..]) == multiset(s) - multiset{s[i]}
  {
    var front, back := s[..i], s[i + 1..];
    assert s == front + [s[i]] + back;
    assert multiset(s) == multiset(front) + multiset{s[i]} + multiset(back);
    assert multiset(front + back) == multiset(front) + multiset(back);
  }

  /** Deleting an absent id leaves the collection as it was. */
  lemma DeleteAbsentIsNoOp(s: seq<Product>, id: int)
    requires forall j :: 0 <= j < |s| ==> s[j].id != id
    ensures AfterDelete(s, id) == s
  {
  }

  /** Deleting keeps every stored product valid and the names distinct. */
  lemma DeletePreservesInvariants(s: seq<Product>, id: int)
    ensures AllValid(s) ==> AllValid(AfterDelete(s, id))
    ensures DistinctNames(s) ==> DistinctNames(AfterDelete(s, id))
  {
    match FindIndex(s, id)
    case None =>
    case Some(k) =>
      var r := AfterDelete(s, id);
      assert r == s[..k] + s[k + 1..];
      assert forall j :: 0 <= j < |r| ==> r[j] == s[Skip(j, k)];
      if DistinctNames(s) {
        forall i, j | 0 <= i < j < |r|
          ensures Text.Normalize(r[i].name) != Text.Normalize(r[j].name)
        {
          assert Skip(i, k) < Skip(j, k);
        }
      }
  }

  /** The position in the original list of position `j` of the list with position `k` removed. */
  function Skip(j: nat, k: nat): nat {
    if j < k then j else j + 1
  }

  /** Ids are not unique: when two records share an id, deleting it once leaves the later one in place. */
  lemma DeleteLeavesLaterTwin(s: seq<Product>, id: int, a: nat, b: nat)
    requires a < b < |s| && s[a].id == id && s[b].id == id
    ensures FindIndex(AfterDelete(s, id), id).Some?
  {
    var r := AfterDelete(s, id);
    assert r[b - 1] == s[b];
  }

  // ----- Sample data ---------------------------------------------------------

  /** Three products without blanks at the ends of their names and with different initials up to case have distinct names. */
  lemma DistinctByInitials(s: seq<Product>)
    requires |s| == 3
    requires forall i :: 0 <= i < 3 ==> s[i].name != [] && !Text.IsSpace(s[i].name[0]) && !Text.IsSpace(s[i].name[|s[i].name| - 1])
    requires Text.LowerChar(s[0].name[0]) != Text.LowerChar(s[1].name[0])
    requires Text.LowerChar(s[0].name[0]) != Text.LowerChar(s[2].name[0])
    requires Text.LowerChar(s[1].name[0]) != Text.LowerChar(s[2].name[0])
    ensures DistinctNames(s)
  {
    Text.NormalizeDiffersByInitial(s[0].name, s[1].name);
    Text.NormalizeDiffersByInitial(s[0].name, s[2].name);
    Text.NormalizeDiffersByInitial(s[1].name, s[2].name);
    forall i, j | 0 <= i < j < |s| ensures Text.Normalize(s[i].name) != Text.Normalize(s[j].name) {
      assert (i == 0 && j == 1) || (i == 0 && j == 2) || (i == 1 && j == 2);
    }
  }

  /** The three sample products are valid. */
  lemma SampleDataValid()
    ensures |SampleData()| == 3 && AllValid(SampleData())
  {
  }

  /** The sample products' names are distinct. */
  lemma SampleDataDistinct()
    ensures DistinctNames(SampleData())
  {
    var s := SampleData();
    assert forall i :: 0 <= i < 3 ==> s[i].name != [] && !Text.IsSpace(s[i].name[0]) && !Text.IsSpace(s[i].name[|s[i].name| - 1]) by {
      assert s[2].name[|s[2].name| - 1] == 'n';
    }
    DistinctByInitials(s);
  }
}
