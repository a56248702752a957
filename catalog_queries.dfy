/** The queries data/catalogs.ts runs on a resolved catalog: the de-duplicated
    product list of a taxon subtree or of a whole catalog, and the search for a
    taxon by slug. */
module CatalogQueries {
  import opened Results
  import opened Sequences
  import opened CatalogData
  import opened CatalogResolver

  /** The key lodash `uniqBy(_, 'sku')` compares. */
  function SkuOf(p: Product): string
  {
    p.sku
  }

  // ---------------------------------------------------------------------------
  // Reference definitions: every product and every taxon of a subtree, pre-order

  /** The taxon's own products, then those of each child subtree, duplicates kept. */
  function AllProducts(t: Taxon): seq<Product>
    decreases t, 1
  {
    t.products + AllProductsOf(t.taxons)
  }

  function AllProductsOf(ts: seq<Taxon>): seq<Product>
    decreases ts, 0
  {
    if ts == [] then [] else AllProducts(ts[0]) + AllProductsOf(ts[1..])
  }

  /** Every product the catalog's taxonomies reach, in taxonomy order. */
  function CatalogProducts(taxonomies: seq<Taxonomy>): seq<Product>
  {
    if taxonomies == [] then [] else AllProductsOf(taxonomies[0].taxons) + CatalogProducts(taxonomies[1..])
  }

  /** The taxons of a forest in depth-first pre-order. */
  function Preorder(ts: seq<Taxon>): seq<Taxon>
    decreases ts
  {
    if ts == [] then [] else [ts[0]] + Preorder(ts[0].taxons) + Preorder(ts[1..])
  }

  /** The taxons of every taxonomy, in taxonomy order, each forest in pre-order. */
  function CatalogPreorder(taxonomies: seq<Taxonomy>): seq<Taxon>
  {
    if taxonomies == [] then [] else Preorder(taxonomies[0].taxons) + CatalogPreorder(taxonomies[1..])
  }

  // ---------------------------------------------------------------------------
  // flattenProductsFromTaxon / flattenProductsFromCatalog

  /** `flattenProductsFromTaxon`: own products and every descendant's, at most one
      per SKU. */
  function FlattenProductsFromTaxon(t: Taxon): (r: seq<Product>)
    ensures DistinctBy(r, SkuOf)
    decreases t, 1
  {
    UniqBy(t.products + FlattenEach(t.taxons), SkuOf)
  }

  /** `taxons.flatMap(flattenProductsFromTaxon)` */
  function FlattenEach(ts: seq<Taxon>): seq<Product>
    decreases ts, 0
  {
    if ts == [] then [] else FlattenProductsFromTaxon(ts[0]) + FlattenEach(ts[1..])
  }

  /** `flattenProductsFromCatalog`: every top-level taxon's list, across all
      taxonomies, at most one per SKU. */
  function FlattenProductsFromCatalog(c: Catalog): (r: seq<Product>)
    ensures DistinctBy(r, SkuOf)
  {
    UniqBy(FlattenTaxonomies(c.taxonomies), SkuOf)
  }

  function FlattenTaxonomies(taxonomies: seq<Taxonomy>): seq<Product>
  {
    if taxonomies == [] then [] else FlattenEach(taxonomies[0].taxons) + FlattenTaxonomies(taxonomies[1..])
  }

  /** De-duplicating each subtree before joining them changes nothing: the result
      is one `uniqBy` over every product of the subtree in traversal order, so the
      first occurrence wins and every SKU of the subtree is present. */
  lemma FlattenProductsFromTaxonIsUniq(t: Taxon)
    ensures FlattenProductsFromTaxon(t) == UniqBy(AllProducts(t), SkuOf)
    ensures KeysOf(FlattenProductsFromTaxon(t), SkuOf) == KeysOf(AllProducts(t), SkuOf)
  {
    FlattenEachIsUniq(t.taxons, KeysOf(t.products, SkuOf));
    UniqByFromAppend(t.products, FlattenEach(t.taxons), SkuOf, {});
    UniqByFromAppend(t.products, AllProductsOf(t.taxons), SkuOf, {});
    assert {} + KeysOf(t.products, SkuOf) == KeysOf(t.products, SkuOf);
  }

  lemma {:induction false} FlattenEachIsUniq(ts: seq<Taxon>, seen: set<string>)
    ensures UniqByFrom(FlattenEach(ts), SkuOf, seen) == UniqByFrom(AllProductsOf(ts), SkuOf, seen)
    decreases ts
  {
    if ts != [] {
      var t := ts[0];
      var own := FlattenProductsFromTaxon(t);
      FlattenProductsFromTaxonIsUniq(t);
      UniqByFromAppend(own, FlattenEach(ts[1..]), SkuOf, seen);
      UniqByFromAppend(AllProducts(t), AllProductsOf(ts[1..]), SkuOf, seen);
      UniqByFromTwice(AllProducts(t), SkuOf, {}, seen);
      assert {} + seen == seen;
      FlattenEachIsUniq(ts[1..], seen + KeysOf(AllProducts(t), SkuOf));
    }
  }

  lemma {:induction false} FlattenTaxonomiesIsUniq(taxonomies: seq<Taxonomy>, seen: set<string>)
    ensures UniqByFrom(FlattenTaxonomies(taxonomies), SkuOf, seen) == UniqByFrom(CatalogProducts(taxonomies), SkuOf, seen)
  {
    if taxonomies != [] {
      var forest := taxonomies[0].taxons;
      UniqByFromAppend(FlattenEach(forest), FlattenTaxonomies(taxonomies[1..]), SkuOf, seen);
      UniqByFromAppend(AllProductsOf(forest), CatalogProducts(taxonomies[1..]), SkuOf, seen);
      FlattenEachIsUniq(forest, seen);
      FlattenEachIsUniq(forest, {});
      FlattenProductKeys(forest);
      FlattenTaxonomiesIsUniq(taxonomies[1..], seen + KeysOf(AllProductsOf(forest), SkuOf));
    }
  }

  lemma {:induction false} FlattenProductKeys(ts: seq<Taxon>)
    ensures KeysOf(FlattenEach(ts), SkuOf) == KeysOf(AllProductsOf(ts), SkuOf)
  {
    FlattenEachIsUniq(ts, {});
    var a := UniqByFrom(FlattenEach(ts), SkuOf, {});
    var b := UniqByFrom(AllProductsOf(ts), SkuOf, {});
    assert a == b;
    assert KeysOf(a, SkuOf) == KeysOf(FlattenEach(ts), SkuOf) - {};
    assert KeysOf(b, SkuOf) == KeysOf(AllProductsOf(ts), SkuOf) - {};
    assert KeysOf(FlattenEach(ts), SkuOf) - {} == KeysOf(FlattenEach(ts), SkuOf);
    assert KeysOf(AllProductsOf(ts), SkuOf) - {} == KeysOf(AllProductsOf(ts), SkuOf);
  }

  /** The catalog-wide list is one `uniqBy` over every product reached, taxonomy
      by taxonomy: the first occurrence in traversal order wins. */
  lemma FlattenProductsFromCatalogIsUniq(c: Catalog)
    ensures FlattenProductsFromCatalog(c) == UniqBy(CatalogProducts(c.taxonomies), SkuOf)
    ensures KeysOf(FlattenProductsFromCatalog(c), SkuOf) == KeysOf(CatalogProducts(c.taxonomies), SkuOf)
  {
    FlattenTaxonomiesIsUniq(c.taxonomies, {});
  }

  // ---------------------------------------------------------------------------
  // findTaxonBySlug

  /** A `deepFind` hit: the taxon and the path from the forest's root to it. */
  datatype Found = Found(taxon: Taxon, memo: seq<Taxon>)

  /** Position `i` of `s` holds the first taxon with this slug. */
  predicate FirstSlugAt(s: seq<Taxon>, slug: string, i: int)
  {
    0 <= i < |s| && s[i].slug == slug && forall j :: 0 <= j < i ==> s[j].slug != slug
  }

  predicate NoSlug(s: seq<Taxon>, slug: string)
  {
    forall j :: 0 <= j < |s| ==> s[j].slug != slug
  }

  /** `deepFind(taxons, 'taxons', 'slug', slug)`: a depth-first search that tests
      a taxon before its children and its children before its next sibling,
      recording the path it went down. */
  function DeepFind(ts: seq<Taxon>, slug: string, path: seq<Taxon>): (r: Option<Found>)
    ensures r.Some? ==> r.value.taxon.slug == slug
    ensures r.Some? ==> |r.value.memo| > |path| && r.value.memo[..|path|] == path &&
                        r.value.memo[|r.value.memo| - 1] == r.value.taxon
    decreases ts
  {
    if ts == [] then None
    else if ts[0].slug == slug then Some(Found(ts[0], path + [ts[0]]))
    else
      match DeepFind(ts[0].taxons, slug, path + [ts[0]])
      case Some(found) =>
        assert (path + [ts[0]])[..|path|] == path;
        Some(found)
      case None => DeepFind(ts[1..], slug, path)
  }

  /** The `reduce` over taxonomies: keep the first hit, search the next forest
      only while nothing was found. Once a hit is in the accumulator, the rest
      of the `reduce` keeps it; nothing is found exactly when no forest has a hit. */
  function SearchTaxonomies(taxonomies: seq<Taxonomy>, slug: string, acc: Option<Found>): (r: Option<Found>)
    ensures acc.Some? ==> r == acc
    ensures acc.None? ==> (r.None? <==> forall k :: 0 <= k < |taxonomies| ==> DeepFind(taxonomies[k].taxons, slug, []).None?)
  {
    if taxonomies == [] then acc
    else
      var next := if acc.Some? then acc else DeepFind(taxonomies[0].taxons, slug, []);
      assert forall k :: 1 <= k < |taxonomies| ==> taxonomies[k] == taxonomies[1..][k - 1];
      SearchTaxonomies(taxonomies[1..], slug, next)
  }

  /** `findTaxonBySlug`: the first hit over the taxonomies in order; throws when
      no taxonomy has one. */
  function FindTaxonBySlug(c: Catalog, slug: string): (r: Result<Found>)
    ensures r.Ok? ==> r.value.taxon.slug == slug && |r.value.memo| > 0 && r.value.memo[|r.value.memo| - 1] == r.value.taxon
    ensures r.Err? ==> r.error == TaxonBySlugNotFound
  {
    SearchFound(c.taxonomies, slug);
    match SearchTaxonomies(c.taxonomies, slug, None)
    case Some(found) => Ok(found)
    case None => Err(TaxonBySlugNotFound)
  }

  lemma {:induction false} SearchFound(taxonomies: seq<Taxonomy>, slug: string)
    ensures var r := SearchTaxonomies(taxonomies, slug, None);
            r.Some? ==> r.value.taxon.slug == slug && |r.value.memo| > 0 && r.value.memo[|r.value.memo| - 1] == r.value.taxon
  {
    if taxonomies != [] {
      var first := DeepFind(taxonomies[0].taxons, slug, []);
      if first.None? {
        SearchFound(taxonomies[1..], slug);
      }
    }
  }

  lemma FirstInPrefix(a: seq<Taxon>, b: seq<Taxon>, slug: string, i: int)
    requires FirstSlugAt(a, slug, i)
    ensures FirstSlugAt(a + b, slug, i) && (a + b)[i] == a[i]
  {
  }

  lemma FirstInSuffix(a: seq<Taxon>, b: seq<Taxon>, slug: string, i: int)
    requires NoSlug(a, slug) && FirstSlugAt(b, slug, i)
    ensures FirstSlugAt(a + b, slug, |a| + i) && (a + b)[|a| + i] == b[i]
  {
    forall j | 0 <= j < |a| + i ensures (a + b)[j].slug != slug {
      if j >= |a| { assert (a + b)[j] == b[j - |a|]; }
    }
  }

  lemma NoSlugAppend(a: seq<Taxon>, b: seq<Taxon>, slug: string)
    ensures NoSlug(a + b, slug) <==> NoSlug(a, slug) && NoSlug(b, slug)
  {
    if NoSlug(a, slug) && NoSlug(b, slug) {
      forall j | 0 <= j < |a + b| ensures (a + b)[j].slug != slug {
        if j >= |a| { assert (a + b)[j] == b[j - |a|]; }
      }
    }
    if NoSlug(a + b, slug) {
      assert forall j :: 0 <= j < |a| ==> (a + b)[j] == a[j];
      assert forall j :: 0 <= j < |b| ==> (a + b)[|a| + j] == b[j];
    }
  }

  /** `deepFind` finds the first taxon of the forest's pre-order with that slug, and
      finds nothing only when no taxon of the forest has it. */
  lemma {:induction false} DeepFindIsFirst(ts: seq<Taxon>, slug: string, path: seq<Taxon>)
    ensures var r := DeepFind(ts, slug, path);
            && (r.None? <==> NoSlug(Preorder(ts), slug))
            && (r.Some? ==> exists i :: FirstSlugAt(Preorder(ts), slug, i) && Preorder(ts)[i] == r.value.taxon)
    decreases ts
  {
    if ts != [] {
      var t := ts[0];
      var head := [t] + Preorder(t.taxons);
      var after := Preorder(ts[1..]);
      assert Preorder(ts) == head + after;
      if t.slug == slug {
        assert FirstSlugAt(head, slug, 0);
        FirstInPrefix(head, after, slug, 0);
      } else {
        DeepFindIsFirst(t.taxons, slug, path + [t]);
        NoSlugAppend([t], Preorder(t.taxons), slug);
        NoSlugAppend(head, after, slug);
        var sub := DeepFind(t.taxons, slug, path + [t]);
        if sub.Some? {
          var i :| FirstSlugAt(Preorder(t.taxons), slug, i) && Preorder(t.taxons)[i] == sub.value.taxon;
          FirstInSuffix([t], Preorder(t.taxons), slug, i);
          FirstInPrefix(head, after, slug, 1 + i);
        } else {
          DeepFindIsFirst(ts[1..], slug, path);
          var rest := DeepFind(ts[1..], slug, path);
          if rest.Some? {
            var i :| FirstSlugAt(after, slug, i) && after[i] == rest.value.taxon;
            FirstInSuffix(head, after, slug, i);
          }
        }
      }
    }
  }

  /** `findTaxonBySlug` returns the first taxon with that slug in traversal order
      (taxonomies in order, each forest depth-first), and fails exactly when the
      catalog has no taxon with that slug. */
  lemma {:induction false} FindTaxonBySlugIsFirst(c: Catalog, slug: string)
    ensures var r := FindTaxonBySlug(c, slug);
            && (r.Err? <==> NoSlug(CatalogPreorder(c.taxonomies), slug))
            && (r.Ok? ==> exists i :: FirstSlugAt(CatalogPreorder(c.taxonomies), slug, i) &&
                                      CatalogPreorder(c.taxonomies)[i] == r.value.taxon)
  {
    SearchIsFirst(c.taxonomies, slug);
  }

  lemma {:induction false} SearchIsFirst(taxonomies: seq<Taxonomy>, slug: string)
    ensures var r := SearchTaxonomies(taxonomies, slug, None);
            var all := CatalogPreorder(taxonomies);
            && (r.None? <==> NoSlug(all, slug))
            && (r.Some? ==> exists i :: FirstSlugAt(all, slug, i) && all[i] == r.value.taxon)
  {
    if taxonomies != [] {
      var forest := Preorder(taxonomies[0].taxons);
      var rest := CatalogPreorder(taxonomies[1..]);
      assert CatalogPreorder(taxonomies) == forest + rest;
      DeepFindIsFirst(taxonomies[0].taxons, slug, []);
      NoSlugAppend(forest, rest, slug);
      var first := DeepFind(taxonomies[0].taxons, slug, []);
      if first.Some? {
        var i :| FirstSlugAt(forest, slug, i) && forest[i] == first.value.taxon;
        FirstInPrefix(forest, rest, slug, i);
      } else {
        SearchIsFirst(taxonomies[1..], slug);
        var r := SearchTaxonomies(taxonomies[1..], slug, None);
        if r.Some? {
          var i :| FirstSlugAt(rest, slug, i) && rest[i] == r.value.taxon;
          FirstInSuffix(forest, rest, slug, i);
        }
      }
    }
  }
}
