/**
 * frontend/src/components/ProductList.jsx: the catalogue page. It derives the
 * category list, filters and sorts the fetched products whenever a control
 * changes, shows them six per page, and guards "add to cart" by the stock.
 */
module ProductList {
  import opened Wrappers
  import opened Models
  import Text
  import Lists

  // ------------------------------------------------------------- categories

  function CategoryList(products: seq<ProductDoc>): (cs: seq<string>)
    ensures |cs| == |products| && forall i :: 0 <= i < |products| ==> cs[i] == products[i].product.category
  {
    seq(|products|, i requires 0 <= i < |products| => products[i].product.category)
  }

  /** `Array.from(new Set(products.map(p => p.category))).sort()`: the default sort compares strings code unit by code unit. */
  function Categories(products: seq<ProductDoc>): seq<string> {
    Lists.SortBy(Lists.Dedupe(CategoryList(products)), Text.LexLe)
  }

  lemma LexLeIsOrder()
    ensures Lists.Total(Text.LexLe) && Lists.Transitive(Text.LexLe)
  {
    forall a, b ensures Text.LexLe(a, b) || Text.LexLe(b, a) {
      Text.LexLeTotal(a, b);
    }
    forall a, b, c | Text.LexLe(a, b) && Text.LexLe(b, c) ensures Text.LexLe(a, c) {
      Text.LexLeTransitive(a, b, c);
    }
  }

  /** A list without repeats holds each value at most once, so any rearrangement of it has no repeats either. */
  lemma {:induction false} DistinctCount(a: seq<string>, x: string)
    requires forall i, j :: 0 <= i < j < |a| ==> a[i] != a[j]
    ensures multiset(a)[x] <= 1
  {
    if |a| > 0 {
      assert a == [a[0]] + a[1..];
      DistinctCount(a[1..], x);
      if a[0] == x {
        assert x !in a[1..];
      }
    }
  }

  lemma DistinctPermutation(a: seq<string>, b: seq<string>)
    requires multiset(a) == multiset(b)
    requires forall i, j :: 0 <= i < j < |a| ==> a[i] != a[j]
    ensures forall i, j :: 0 <= i < j < |b| ==> b[i] != b[j]
  {
    forall i, j | 0 <= i < j < |b| ensures b[i] != b[j] {
      if b[i] == b[j] {
        var x := b[i];
        assert b == b[..j] + b[j..];
        assert x in b[..j] && x in b[j..];
        assert multiset(b)[x] == multiset(b[..j])[x] + multiset(b[j..])[x];
        DistinctCount(a, x);
      }
    }
  }

  /** The category list is strictly increasing and holds exactly the categories of the products. */
  lemma CategoriesSortedDistinct(products: seq<ProductDoc>)
    ensures var cats := Categories(products);
            && (forall c :: c in cats <==> exists i :: 0 <= i < |products| && products[i].product.category == c)
            && (forall i, j :: 0 <= i < j < |cats| ==> Text.LexLe(cats[i], cats[j]) && cats[i] != cats[j])
  {
    var d := Lists.Dedupe(CategoryList(products));
    var cats := Categories(products);
    LexLeIsOrder();
    Lists.SortBySorted(d, Text.LexLe);
    Lists.SortByMembers(d, Text.LexLe);
    DistinctPermutation(d, cats);
    forall c ensures c in cats <==> exists i :: 0 <= i < |products| && products[i].product.category == c {
      if c in cats {
        var k :| 0 <= k < |CategoryList(products)| && CategoryList(products)[k] == c;
      }
      if exists i :: 0 <= i < |products| && products[i].product.category == c {
        var i :| 0 <= i < |products| && products[i].product.category == c;
        assert CategoryList(products)[i] == c;
      }
    }
  }

  // ------------------------------------------------------------- filter and sort

  /** The search box: an empty term keeps everything, otherwise a case-insensitive substring test on the name. */
  predicate SearchKeeps(d: ProductDoc, term: string) {
    term == "" || Text.Contains(Text.ToLower(d.product.name), Text.ToLower(term))
  }

  /** The category select: empty keeps everything, otherwise an exact match. */
  predicate CategoryKeeps(d: ProductDoc, category: string) {
    category == "" || d.product.category == category
  }

  /** The tests as the callbacks handed to `filter`. */
  function SearchTest(term: string): ProductDoc -> bool {
    (d: ProductDoc) => SearchKeeps(d, term)
  }

  function CategoryTest(category: string): ProductDoc -> bool {
    (d: ProductDoc) => CategoryKeeps(d, category)
  }

  function BothTest(term: string, category: string): ProductDoc -> bool {
    (d: ProductDoc) => SearchKeeps(d, term) && CategoryKeeps(d, category)
  }

  /** An empty search box keeps every product, in order. */
  lemma EmptySearchKeepsAll(products: seq<ProductDoc>)
    ensures Lists.Filter(products, SearchTest("")) == products
  {
  }

  /** An empty category select keeps every product, in order. */
  lemma EmptyCategoryKeepsAll(products: seq<ProductDoc>)
    ensures Lists.Filter(products, CategoryTest("")) == products
  {
  }

  /** The products both controls keep, in catalogue order. */
  function Matching(products: seq<ProductDoc>, term: string, category: string): seq<ProductDoc> {
    Lists.Filter(products, BothTest(term, category))
  }

  predicate PriceAscLe(a: ProductDoc, b: ProductDoc) { a.product.price <= b.product.price }
  predicate PriceDescLe(a: ProductDoc, b: ProductDoc) { b.product.price <= a.product.price }

  const SortOptions: set<string> := {"priceAsc", "priceDesc", "alphaAsc", "alphaDesc"}

  /**
   * The sort step of the filter effect. `nameLe(a, b)` stands for
   * `a.localeCompare(b) <= 0`. The order is by price or by name, up or down,
   * and the catalogue order for any other option; nothing is lost or added.
   */
  function SortForOption(items: seq<ProductDoc>, option: string, nameLe: (string, string) -> bool): (r: seq<ProductDoc>)
    ensures multiset(r) == multiset(items)
    ensures option == "priceAsc" ==>
      forall i, j :: 0 <= i < j < |r| ==> r[i].product.price <= r[j].product.price
    ensures option == "priceDesc" ==>
      forall i, j :: 0 <= i < j < |r| ==> r[i].product.price >= r[j].product.price
    ensures option == "alphaAsc" && Lists.Total(nameLe) && Lists.Transitive(nameLe) ==>
      forall i, j :: 0 <= i < j < |r| ==> nameLe(r[i].product.name, r[j].product.name)
    ensures option == "alphaDesc" && Lists.Total(nameLe) && Lists.Transitive(nameLe) ==>
      forall i, j :: 0 <= i < j < |r| ==> nameLe(r[j].product.name, r[i].product.name)
    ensures option !in SortOptions ==> r == items
  {
    if option == "priceAsc" then
      Lists.SortBySorted(items, PriceAscLe);
      Lists.SortBy(items, PriceAscLe)
    else if option == "priceDesc" then
      Lists.SortBySorted(items, PriceDescLe);
      Lists.SortBy(items, PriceDescLe)
    else if option == "alphaAsc" then
      var le := (a: ProductDoc, b: ProductDoc) => nameLe(a.product.name, b.product.name);
      NameOrder(nameLe, le, false);
      Lists.SortBy(items, le)
    else if option == "alphaDesc" then
      var le := (a: ProductDoc, b: ProductDoc) => nameLe(b.product.name, a.product.name);
      NameOrder(nameLe, le, true);
      Lists.SortBy(items, le)
    else items
  }

  /** Comparing products by name, either way round, is total and transitive when the name order is. */
  lemma NameOrder(nameLe: (string, string) -> bool, le: (ProductDoc, ProductDoc) -> bool, reversed: bool)
    requires forall a, b :: le(a, b) == if reversed then nameLe(b.product.name, a.product.name)
                                         else nameLe(a.product.name, b.product.name)
    ensures Lists.Total(nameLe) && Lists.Transitive(nameLe) ==> Lists.Total(le) && Lists.Transitive(le)
    ensures Lists.Total(nameLe) && Lists.Transitive(nameLe) ==> forall items :: Lists.Sorted(Lists.SortBy(items, le), le)
  {
    if Lists.Total(nameLe) && Lists.Transitive(nameLe) {
      assert Lists.Total(le);
      assert Lists.Transitive(le);
      forall items ensures Lists.Sorted(Lists.SortBy(items, le), le) {
        Lists.SortBySorted(items, le);
      }
    }
  }

  /**
   * The filter effect: search, then category, then sort. The result holds
   * exactly the products both controls keep, each as often as in the
   * catalogue, in the chosen order; the page goes back to 1.
   */
  method ApplyFilters(products: seq<ProductDoc>, searchTerm: string, categoryFilter: string, sortOption: string,
                      nameLe: (string, string) -> bool)
    returns (result: seq<ProductDoc>, page: int)
    ensures page == 1
    ensures multiset(result) == multiset(Matching(products, searchTerm, categoryFilter))
    ensures forall d :: d in result <==> d in products && SearchKeeps(d, searchTerm) && CategoryKeeps(d, categoryFilter)
    ensures result == SortForOption(Matching(products, searchTerm, categoryFilter), sortOption, nameLe)
  {
    result := products;
    EmptySearchKeepsAll(products);
    if searchTerm != "" {
      result := Lists.Filter(result, SearchTest(searchTerm));
    }
    EmptyCategoryKeepsAll(result);
    if categoryFilter != "" {
      result := Lists.Filter(result, CategoryTest(categoryFilter));
    }
    Lists.FilterFilter(products, SearchTest(searchTerm), CategoryTest(categoryFilter), BothTest(searchTerm, categoryFilter));
    ghost var matching := result;
    result := SortForOption(result, sortOption, nameLe);
    forall d ensures d in result <==> d in matching {
      assert d in result <==> d in multiset(result);
      assert d in matching <==> d in multiset(matching);
    }
    page := 1;
  }

  // ------------------------------------------------------------- pagination

  const ItemsPerPage: int := 6

  /** An index argument of `Array.prototype.slice`, resolved against the length. */
  function SliceIndex(i: int, n: nat): (k: nat)
    ensures k <= n
    ensures 0 <= i <= n ==> k == i
  {
    if i < 0 then (if n + i < 0 then 0 else n + i) else if i > n then n else i
  }

  /** `items.slice(indexOfFirst, indexOfLast)` with `indexOfLast = page * 6`. */
  function PageItems<T>(items: seq<T>, page: int): (r: seq<T>)
    ensures |r| <= ItemsPerPage
    ensures page >= 1 ==>
      var lo := if (page - 1) * ItemsPerPage < |items| then (page - 1) * ItemsPerPage else |items|;
      var hi := if page * ItemsPerPage < |items| then page * ItemsPerPage else |items|;
      r == items[lo..hi]
  {
    var last := page * ItemsPerPage;
    var first := last - ItemsPerPage;
    var lo := SliceIndex(first, |items|);
    var hi := SliceIndex(last, |items|);
    if lo < hi then items[lo..hi] else []
  }

  /** `Math.ceil(n / 6)`. */
  function TotalPages(n: nat): (t: nat)
    ensures t * ItemsPerPage >= n
    ensures n > 0 ==> (t - 1) * ItemsPerPage < n
    ensures n == 0 ==> t == 0
  {
    (n + ItemsPerPage - 1) / ItemsPerPage
  }

  /** Pages 1 to `k` laid end to end. */
  function FirstPages<T>(items: seq<T>, k: nat): seq<T> {
    if k == 0 then [] else FirstPages(items, k - 1) + PageItems(items, k)
  }

  lemma {:induction false} FirstPagesPrefix<T>(items: seq<T>, k: nat)
    ensures FirstPages(items, k) == items[..if k * ItemsPerPage < |items| then k * ItemsPerPage else |items|]
  {
    if k > 0 {
      FirstPagesPrefix(items, k - 1);
    }
  }

  /** Reading every page in turn shows each filtered product once, in order; every page in range is non-empty. */
  lemma PagesCoverAll<T>(items: seq<T>)
    ensures FirstPages(items, TotalPages(|items|)) == items
    ensures forall p :: 1 <= p <= TotalPages(|items|) ==> |PageItems(items, p)| > 0
    ensures forall p :: p > TotalPages(|items|) ==> PageItems(items, p) == []
  {
    FirstPagesPrefix(items, TotalPages(|items|));
  }

  // ------------------------------------------------------------- add to cart

  /** A cart line as this component reads it: `item.product._id` and `item.quantity`. */
  datatype CartEntry = CartEntry(productId: Id, quantity: int)

  /** `cartItems.find(...)`: the quantity of the first line for `id`, or 0. */
  function InCart(entries: seq<CartEntry>, id: Id): (q: int)
    ensures (forall i :: 0 <= i < |entries| ==> entries[i].productId != id) ==> q == 0
    ensures forall i :: (0 <= i < |entries| && entries[i].productId == id &&
                         (forall j :: 0 <= j < i ==> entries[j].productId != id)) ==> q == entries[i].quantity
  {
    if |entries| == 0 then 0
    else if entries[0].productId == id then entries[0].quantity
    else
      assert forall i :: 1 <= i < |entries| ==> entries[i] == entries[1..][i - 1];
      InCart(entries[1..], id)
  }

  datatype AddOutcome = AskLogin | StockAlert | Added(product: ProductDoc, quantity: int)

  /**
   * handleAddToCart: without a user, ask to log in; when the stock left after
   * what is already in the cart is below 1 or below the request, warn;
   * otherwise hand the product to the cart. Only `Added` reaches the cart.
   */
  function HandleAddToCart(loggedIn: bool, entries: seq<CartEntry>, doc: ProductDoc, quantity: int): (r: AddOutcome)
    ensures r == AskLogin <==> !loggedIn
    ensures r == StockAlert <==>
      loggedIn && (doc.product.stock - InCart(entries, doc.id) < 1 || quantity > doc.product.stock - InCart(entries, doc.id))
    ensures r.Added? ==> r == Added(doc, quantity)
    ensures r.Added? ==> InCart(entries, doc.id) + quantity <= doc.product.stock
                         && InCart(entries, doc.id) + 1 <= doc.product.stock
  {
    if !loggedIn then AskLogin
    else
      var allowed := doc.product.stock - InCart(entries, doc.id);
      if allowed < 1 || quantity > allowed then StockAlert
      else Added(doc, quantity)
  }

  /** A product with no stock is never handed to the cart. */
  lemma OutOfStockNeverAdded(loggedIn: bool, entries: seq<CartEntry>, doc: ProductDoc, quantity: int)
    requires doc.product.stock <= 0
    requires forall i :: 0 <= i < |entries| ==> entries[i].quantity >= 0
    ensures !HandleAddToCart(loggedIn, entries, doc, quantity).Added?
  {
    var q := InCart(entries, doc.id);
    assert q >= 0 by {
      if exists i :: 0 <= i < |entries| && entries[i].productId == doc.id {
        InCartNonNegative(entries, doc.id);
      }
    }
  }

  lemma {:induction false} InCartNonNegative(entries: seq<CartEntry>, id: Id)
    requires forall i :: 0 <= i < |entries| ==> entries[i].quantity >= 0
    ensures InCart(entries, id) >= 0
  {
    if |entries| > 0 && entries[0].productId != id {
      InCartNonNegative(entries[1..], id);
    }
  }
}
