/**
 * The home feed's client-side logic: the product search filter and the
 * rotation index of the banner carousel. Fetching products and categories,
 * rendering and the interval timer are not part of this model.
 */
module Home {

  datatype Product = Product(id: int, name: string, image: string, price: int)

  datatype Banner = Banner(id: int, image: string)

  /** The five fixed promotional banners, in carousel order. */
  const Banners: seq<Banner> := [
    Banner(1, "https://t4.ftcdn.net/jpg/03/06/69/49/360_F_306694930_S3Z8H9Qk1MN79ZUe7bEWqTFuonRZdemw.jpg"),
    Banner(2, "https://static.vecteezy.com/system/resources/previews/011/640/737/non_2x/shopping-day-sale-banner-template-design-for-web-or-social-media-vector.jpg"),
    Banner(3, "https://img.freepik.com/premium-vector/social-media-super-sale-banner-design-super-sale-facebook-cover-template_471203-1343.jpg?semt=ais_hybrid"),
    Banner(4, "https://cdn.vectorstock.com/i/1000v/09/80/online-shopping-banner-vector-17230980.jpg"),
    Banner(5, "https://encrypted-tbn0.gstatic.com/images?q=tbn:ANd9GcRAZe3aX7YNYcANgO1NoH8E7Wfw2OmtZfxcPQ&s")
  ]

  // ---------------------------------------------------------------------
  // Lower-casing (ASCII letters only)
  // ---------------------------------------------------------------------

  function LowerChar(c: char): char
  {
    if 'A' <= c <= 'Z' then (c as int - 'A' as int + 'a' as int) as char else c
  }

  predicate IsAsciiUpper(c: char)
  {
    'A' <= c <= 'Z'
  }

  /**
   * `toLowerCase`, restricted to the ASCII letters: no capital letter is left,
   * every other character stays where and what it was.
   */
  function Lower(s: string): (r: string)
    ensures |r| == |s|
    ensures forall i :: 0 <= i < |r| ==> !IsAsciiUpper(r[i])
    ensures forall i :: 0 <= i < |s| && !IsAsciiUpper(s[i]) ==> r[i] == s[i]
  {
    seq(|s|, i requires 0 <= i < |s| => LowerChar(s[i]))
  }

  /** Lower-casing twice is lower-casing once. */
  lemma LowerIdempotent(s: string)
    ensures Lower(Lower(s)) == Lower(s)
  {
    var r := Lower(s);
    assert forall i :: 0 <= i < |r| ==> Lower(r)[i] == r[i];
  }

  // ---------------------------------------------------------------------
  // String.prototype.includes
  // ---------------------------------------------------------------------

  /** `needle` occurs in `hay` starting at position `k`. */
  predicate OccursAt(hay: string, needle: string, k: int)
  {
    0 <= k && k + |needle| <= |hay| && hay[k..k + |needle|] == needle
  }

  /** `hay.indexOf(needle, from)`: the first occurrence at or after `from`, or -1 when there is none. */
  function IndexFrom(hay: string, needle: string, from: nat): (k: int)
    ensures k == -1 || (from <= k && OccursAt(hay, needle, k))
    ensures forall j :: from <= j < (if k == -1 then |hay| + 1 else k) ==> !OccursAt(hay, needle, j)
    decreases |hay| + 1 - from
  {
    if from + |needle| > |hay| then -1
    else if hay[from..from + |needle|] == needle then from
    else IndexFrom(hay, needle, from + 1)
  }

  /** `hay.includes(needle)`. */
  predicate Includes(hay: string, needle: string)
  {
    IndexFrom(hay, needle, 0) != -1
  }

  lemma IncludesIffOccurs(hay: string, needle: string, k: int)
    ensures OccursAt(hay, needle, k) ==> Includes(hay, needle)
    ensures Includes(hay, needle) ==> OccursAt(hay, needle, IndexFrom(hay, needle, 0))
  {
  }

  lemma IncludesEmpty(hay: string)
    ensures Includes(hay, "")
  {
    assert OccursAt(hay, "", 0);
  }

  // ---------------------------------------------------------------------
  // handleSearch
  // ---------------------------------------------------------------------

  /** The filter predicate: the lower-cased name contains the lower-cased query. */
  predicate Matches(product: Product, query: string)
  {
    Includes(Lower(product.name), Lower(query))
  }

  /**
   * `products.filter(...)`: the matching products, in their original order.
   * Every product kept matches and came from the list, and the list never grows.
   */
  function Search(products: seq<Product>, query: string): (r: seq<Product>)
    ensures |r| <= |products|
    ensures forall x :: x in r ==> x in products && Matches(x, query)
  {
    if |products| == 0 then []
    else if Matches(products[0], query) then [products[0]] + Search(products[1..], query)
    else Search(products[1..], query)
  }

  /** `a` is `b` with some elements dropped and the rest kept in order. */
  predicate IsSubsequence<T(==)>(a: seq<T>, b: seq<T>)
    decreases |b|
  {
    || |a| == 0
    || (&& |b| > 0
        && ((a[0] == b[0] && IsSubsequence(a[1..], b[1..])) || IsSubsequence(a, b[1..])))
  }

  lemma {:induction false} SubsequenceShorter<T>(a: seq<T>, b: seq<T>)
    requires IsSubsequence(a, b)
    ensures |a| <= |b|
    decreases |b|
  {
    if |a| > 0 {
      if a[0] == b[0] && IsSubsequence(a[1..], b[1..]) {
        SubsequenceShorter(a[1..], b[1..]);
      } else {
        SubsequenceShorter(a, b[1..]);
      }
    }
  }

  lemma {:induction false} SubsequenceTransitive<T>(a: seq<T>, b: seq<T>, c: seq<T>)
    requires IsSubsequence(a, b) && IsSubsequence(b, c)
    ensures IsSubsequence(a, c)
    decreases |c|
  {
    if |a| > 0 {
      if b[0] == c[0] && IsSubsequence(b[1..], c[1..]) {
        if a[0] == b[0] && IsSubsequence(a[1..], b[1..]) {
          SubsequenceTransitive(a[1..], b[1..], c[1..]);
        } else {
          SubsequenceTransitive(a, b[1..], c[1..]);
        }
      } else {
        SubsequenceTransitive(a, b, c[1..]);
      }
    }
  }

  /** The search result is a subsequence of the list searched: order kept, nothing added. */
  lemma {:induction false} SearchIsSubsequence(products: seq<Product>, query: string)
    ensures IsSubsequence(Search(products, query), products)
    decreases |products|
  {
    if |products| > 0 {
      SearchIsSubsequence(products[1..], query);
      var r := Search(products, query);
      if Matches(products[0], query) {
        assert r[0] == products[0] && r[1..] == Search(products[1..], query);
      }
    }
  }

  /** Nothing that matches is dropped. */
  lemma {:induction false} SearchComplete(products: seq<Product>, query: string, x: Product)
    requires x in products && Matches(x, query)
    ensures x in Search(products, query)
    decreases |products|
  {
    if products[0] != x {
      SearchComplete(products[1..], query, x);
    }
  }

  /**
   * `filter` keeps every occurrence: a matching product appears in the result
   * exactly as often as in the list, a non-matching one not at all.
   */
  lemma {:induction false} SearchCount(products: seq<Product>, query: string, x: Product)
    ensures multiset(Search(products, query))[x] == if Matches(x, query) then multiset(products)[x] else 0
    decreases |products|
  {
    if |products| > 0 {
      SearchCount(products[1..], query, x);
      assert products == [products[0]] + products[1..];
    }
  }

  /** The empty query matches every name, so the list is kept whole. */
  lemma {:induction false} SearchEmptyQuery(products: seq<Product>)
    ensures Search(products, "") == products
    decreases |products|
  {
    if |products| > 0 {
      IncludesEmpty(Lower(products[0].name));
      SearchEmptyQuery(products[1..]);
    }
  }

  /** A list in which everything matches is its own search result. */
  lemma {:induction false} SearchKeepsAllMatching(products: seq<Product>, query: string)
    requires forall x :: x in products ==> Matches(x, query)
    ensures Search(products, query) == products
    decreases |products|
  {
    if |products| > 0 {
      SearchKeepsAllMatching(products[1..], query);
    }
  }

  /** Searching again with the same query changes nothing. */
  lemma SearchIdempotent(products: seq<Product>, query: string)
    ensures Search(Search(products, query), query) == Search(products, query)
  {
    SearchKeepsAllMatching(Search(products, query), query);
  }

  /**
   * Each search filters the current list, not the fetched one: a later query,
   * however broad, only ever yields products the earlier search kept.
   */
  lemma SearchNarrows(products: seq<Product>, first: string, second: string)
    ensures IsSubsequence(Search(Search(products, first), second), Search(products, first))
    ensures IsSubsequence(Search(Search(products, first), second), products)
    ensures forall x :: x in Search(Search(products, first), second) ==> Matches(x, first) && Matches(x, second)
  {
    SearchIsSubsequence(Search(products, first), second);
    SearchIsSubsequence(products, first);
    SubsequenceTransitive(Search(Search(products, first), second), Search(products, first), products);
  }

  /** Two successive searches give the same list in either order. */
  lemma {:induction false} SearchCommutes(products: seq<Product>, first: string, second: string)
    ensures Search(Search(products, first), second) == Search(Search(products, second), first)
    decreases |products|
  {
    if |products| > 0 {
      SearchCommutes(products[1..], first, second);
    }
  }

  /** The query's letter case does not matter. */
  lemma {:induction false} SearchIgnoresQueryCase(products: seq<Product>, query: string)
    ensures Search(products, query) == Search(products, Lower(query))
    decreases |products|
  {
    LowerIdempotent(query);
    if |products| > 0 {
      SearchIgnoresQueryCase(products[1..], query);
    }
  }

  // ---------------------------------------------------------------------
  // Banner rotation
  // ---------------------------------------------------------------------

  /** The interval's updater: `(prevIndex + 1) % banners.length`. */
  function NextBannerIndex(i: nat): (j: nat)
    ensures j < |Banners|
    ensures i + 1 < |Banners| ==> j == i + 1
    ensures i + 1 == |Banners| ==> j == 0
  {
    (i + 1) % |Banners|
  }

  /** The index after `n` ticks of the interval, starting from `i`. */
  function AfterTicks(i: nat, n: nat): nat
  {
    if n == 0 then i else NextBannerIndex(AfterTicks(i, n - 1))
  }

  /** Starting from a valid index, `n` ticks advance it by `n` positions, modulo the banner count. */
  lemma {:induction false} AfterTicksIsModular(i: nat, n: nat)
    requires i < |Banners|
    ensures AfterTicks(i, n) == (i + n) % |Banners|
  {
    if n > 0 {
      AfterTicksIsModular(i, n - 1);
    }
  }

  /** A full round of five ticks brings the carousel back to where it started. */
  lemma BannerCycle(i: nat)
    requires i < |Banners|
    ensures AfterTicks(i, |Banners|) == i
  {
    AfterTicksIsModular(i, |Banners|);
  }

  // ---------------------------------------------------------------------
  // The screen
  // ---------------------------------------------------------------------

  class HomeScreen {
    var products: seq<Product>
    var searchQuery: string
    var loading: bool
    var bannerIndex: nat

    /** The carousel index always names one of the banners. */
    predicate Valid()
      reads this
    {
      bannerIndex < |Banners|
    }

    /** The initial `useState` values. */
    constructor ()
      ensures Valid()
      ensures products == [] && searchQuery == "" && loading && bannerIndex == 0
    {
      products, searchQuery, loading, bannerIndex := [], "", true, 0;
    }

    /** `handleSearch`: the product list is replaced by its filtered version. */
    method HandleSearch()
      requires Valid()
      modifies this
      ensures Valid()
      ensures products == Search(old(products), old(searchQuery))
      ensures !loading
      ensures searchQuery == old(searchQuery) && bannerIndex == old(bannerIndex)
    {
      loading := true;
      products := Search(products, searchQuery);
      loading := false;
    }

    /** One tick of the carousel interval. */
    method AdvanceBanner()
      requires Valid()
      modifies this
      ensures Valid()
      ensures bannerIndex == NextBannerIndex(old(bannerIndex))
      ensures products == old(products) && searchQuery == old(searchQuery) && loading == old(loading)
    {
      bannerIndex := NextBannerIndex(bannerIndex);
    }
  }

}
