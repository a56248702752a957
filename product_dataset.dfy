/** `buildProductDataset` of data/catalogs.ts: a walk over every taxon of a catalog
    that records, per product SKU, the breadcrumb paths under which the product is
    found, one list per taxonomy facet key. */
module ProductDataset {
  import opened Results
  import opened Sequences
  import opened CatalogData

  /** The `ProductDataset` object: SKU keys in insertion order (the order
      `Object.values` lists them in) and the entry stored under each key. */
  datatype Dataset = Dataset(keys: seq<string>, entries: map<string, Entry>)

  /** `{}` */
  const Empty := Dataset([], map[])

  /** The facet list of `sku` under `facetKey`, `[]` when absent
      (`productDataset[sku][facetKey] || []`). */
  function FacetList(d: Dataset, sku: string, facetKey: string): seq<string>
  {
    if sku in d.entries && facetKey in d.entries[sku].facets then d.entries[sku].facets[facetKey] else []
  }

  /** Keys listed once each, exactly the keys of the entries, and no breadcrumb
      twice in any facet list. */
  ghost predicate Valid(d: Dataset)
  {
    && Distinct(d.keys)
    && (forall k :: k in d.entries <==> k in d.keys)
    && (forall k, f :: k in d.entries && f in d.entries[k].facets ==> Distinct(d.entries[k].facets[f]))
  }

  /** `Object.values(productDataset)`: the entries in key order. */
  function Values(d: Dataset): (r: seq<Entry>)
    ensures |r| <= |d.keys|
    ensures forall i :: 0 <= i < |r| ==> r[i] in d.entries.Values
    ensures Valid(d) ==> |r| == |d.keys| && forall i :: 0 <= i < |r| ==> r[i] == d.entries[d.keys[i]]
  {
    ValuesOf(d.keys, d.entries)
  }

  function ValuesOf(keys: seq<string>, entries: map<string, Entry>): (r: seq<Entry>)
    ensures |r| <= |keys|
    ensures forall i :: 0 <= i < |r| ==> r[i] in entries.Values
    ensures (forall k :: k in keys ==> k in entries) ==>
              |r| == |keys| && forall i :: 0 <= i < |r| ==> r[i] == entries[keys[i]]
  {
    if keys == [] then []
    else (if keys[0] in entries then [entries[keys[0]]] else []) + ValuesOf(keys[1..], entries)
  }

  /** `d2` extends `d` without overwriting anything: old keys keep their place,
      every stored product record is kept, and every facet list only grows at
      its end. */
  ghost predicate Grows(d: Dataset, d2: Dataset)
  {
    && d.keys <= d2.keys
    && forall k :: k in d.entries ==>
         && k in d2.entries
         && d2.entries[k].product == d.entries[k].product
         && forall f :: f in d.entries[k].facets ==>
              f in d2.entries[k].facets && d.entries[k].facets[f] <= d2.entries[k].facets[f]
  }

  lemma GrowsTransitive(d1: Dataset, d2: Dataset, d3: Dataset)
    requires Grows(d1, d2) && Grows(d2, d3)
    ensures Grows(d1, d3)
  {
  }

  // ---------------------------------------------------------------------------
  // One product, one breadcrumb

  /** `prevTaxons.map(t => label(t) + " > ").join('')`. */
  function Prefix(env: Env, locale: string, ancestors: seq<RawTaxon>): string
  {
    if ancestors == [] then ""
    else env.translate(ancestors[0].labelText, locale) + " > " + Prefix(env, locale, ancestors[1..])
  }

  /** The breadcrumb recorded at taxon `t` reached through `ancestors` (root first):
      each ancestor's label followed by " > ", then `t`'s own label. */
  function Breadcrumb(env: Env, locale: string, ancestors: seq<RawTaxon>, t: RawTaxon): (s: string)
    ensures ancestors == [] ==> s == env.translate(t.labelText, locale)
    ensures var own := env.translate(t.labelText, locale);
            |own| <= |s| && s[|s| - |own|..] == own
  {
    Prefix(env, locale, ancestors) + env.translate(t.labelText, locale)
  }

  /** A child's breadcrumb is its parent's, then " > ", then the child's label. */
  lemma {:induction false} BreadcrumbOfChild(env: Env, locale: string, ancestors: seq<RawTaxon>, parent: RawTaxon, t: RawTaxon)
    ensures Breadcrumb(env, locale, ancestors + [parent], t)
         == Breadcrumb(env, locale, ancestors, parent) + " > " + env.translate(t.labelText, locale)
  {
    PrefixAppend(env, locale, ancestors, parent);
  }

  lemma {:induction false} PrefixAppend(env: Env, locale: string, ancestors: seq<RawTaxon>, parent: RawTaxon)
    ensures Prefix(env, locale, ancestors + [parent])
         == Prefix(env, locale, ancestors) + env.translate(parent.labelText, locale) + " > "
  {
    if ancestors == [] {
      assert [] + [parent] == [parent];
      assert [parent][1..] == [];
    } else {
      assert (ancestors + [parent])[1..] == ancestors[1..] + [parent];
      PrefixAppend(env, locale, ancestors[1..], parent);
    }
  }

  /** The body of the `forEach` over product variants: keep the stored record (or
      store this one), keep every other facet key, and set the current facet key
      to `uniq([...previous, crumb])`. */
  function MergeProduct(d: Dataset, p: Product, facetKey: string, crumb: string): (r: Dataset)
    ensures r.entries.Keys == d.entries.Keys + {p.sku}
    ensures forall k :: k in d.entries && k != p.sku ==> r.entries[k] == d.entries[k]
    ensures p.sku in d.entries ==> r.entries[p.sku].product == d.entries[p.sku].product
    ensures p.sku !in d.entries ==> r.entries[p.sku].product == p
    ensures p.sku in d.entries ==>
              forall f :: f in d.entries[p.sku].facets && f != facetKey ==>
                f in r.entries[p.sku].facets && r.entries[p.sku].facets[f] == d.entries[p.sku].facets[f]
  {
    var e := if p.sku in d.entries then d.entries[p.sku] else Entry(p, map[]);
    var keys := if p.sku in d.entries then d.keys else d.keys + [p.sku];
    var prev := FacetList(d, p.sku, facetKey);
    Dataset(keys, d.entries[p.sku := e.(facets := e.facets[facetKey := Uniq(prev + [crumb])])])
  }

  /** Merging keeps the dataset valid, overwrites nothing, and appends the
      breadcrumb to the SKU's list for `facetKey` exactly when it is new. */
  lemma MergeProductValid(d: Dataset, p: Product, facetKey: string, crumb: string)
    requires Valid(d)
    ensures var r := MergeProduct(d, p, facetKey, crumb);
            && Valid(r) && Grows(d, r)
            && var prev := FacetList(d, p.sku, facetKey);
               FacetList(r, p.sku, facetKey) == if crumb in prev then prev else prev + [crumb]
  {
    var prev := FacetList(d, p.sku, facetKey);
    UniqAppendOne(prev, crumb);
    MergeProductKeys(d, p, facetKey, crumb);
    MergeProductFacets(d, p, facetKey, crumb);
  }

  lemma MergeProductKeys(d: Dataset, p: Product, facetKey: string, crumb: string)
    requires Valid(d)
    ensures var r := MergeProduct(d, p, facetKey, crumb);
            && Distinct(r.keys) && d.keys <= r.keys
            && forall k :: k in r.entries <==> k in r.keys
  {
  }

  lemma MergeProductFacets(d: Dataset, p: Product, facetKey: string, crumb: string)
    requires Valid(d)
    ensures var r := MergeProduct(d, p, facetKey, crumb);
            forall k, f :: k in r.entries && f in r.entries[k].facets ==> Distinct(r.entries[k].facets[f])
  {
    UniqMembers(FacetList(d, p.sku, facetKey) + [crumb]);
  }

  /** The whole `forEach` over the variants found at one taxon. */
  function MergeAll(d: Dataset, variants: seq<Product>, facetKey: string, crumb: string): Dataset
  {
    if variants == [] then d
    else
      var n := |variants| - 1;
      MergeProduct(MergeAll(d, variants[..n], facetKey, crumb), variants[n], facetKey, crumb)
  }

  /** After the loop every variant's list holds the breadcrumb, and nothing that
      was there before is lost. */
  lemma {:induction false} MergeAllValid(d: Dataset, variants: seq<Product>, facetKey: string, crumb: string)
    requires Valid(d)
    ensures var r := MergeAll(d, variants, facetKey, crumb);
            && Valid(r) && Grows(d, r)
            && forall p :: p in variants ==> crumb in FacetList(r, p.sku, facetKey)
  {
    if variants != [] {
      var n := |variants| - 1;
      var d1 := MergeAll(d, variants[..n], facetKey, crumb);
      var r := MergeProduct(d1, variants[n], facetKey, crumb);
      MergeAllValid(d, variants[..n], facetKey, crumb);
      MergeProductValid(d1, variants[n], facetKey, crumb);
      GrowsTransitive(d, d1, r);
      assert forall p :: p in variants ==> p in variants[..n] || p == variants[n];
      forall p | p in variants[..n] ensures crumb in FacetList(r, p.sku, facetKey) {
        GrowsFacet(d1, r, p.sku, facetKey);
      }
    }
  }

  lemma GrowsFacet(d: Dataset, d2: Dataset, sku: string, facetKey: string)
    requires Grows(d, d2)
    ensures FacetList(d, sku, facetKey) <= FacetList(d2, sku, facetKey)
  {
  }

  // ---------------------------------------------------------------------------
  // The walk, as functions: what `buildProductDataset` computes

  /** The SKU-level records found at taxon `t`: every reference of its subtree
      resolved, then expanded into variants. */
  function TaxonVariants(taxons: seq<RawTaxon>, ghost rank: map<string, nat>, env: Env, locale: string,
                         raw: seq<RawProduct>, t: RawTaxon): (r: Result<seq<Product>>)
    requires Ranked(taxons, rank) && t in taxons
    ensures r.Ok? <==> FlattenReferences(taxons, rank, t).Ok?
    ensures r.Err? ==> r.error.TaxonNotFound?
  {
    var refs :- FlattenReferences(taxons, rank, t);
    Ok(env.flattenVariants(ResolveReferences(env, locale, raw, refs)))
  }

  /** `refs.map(ref => getProductWithVariants(ref, locale, raw))`. */
  function ResolveReferences(env: Env, locale: string, raw: seq<RawProduct>, refs: seq<string>): (r: seq<Product>)
    ensures |r| == |refs|
    ensures forall i :: 0 <= i < |refs| ==> r[i] == env.productWithVariants(refs[i], locale, raw)
  {
    seq(|refs|, i requires 0 <= i < |refs| => env.productWithVariants(refs[i], locale, raw))
  }

  /** `buildProductDataset_taxon(key, ancestors, taxonomy, ...)` applied to `d`. */
  function VisitTaxon(data: RawData, ghost rank: map<string, nat>, env: Env, locale: string, raw: seq<RawProduct>,
                      facetKey: string, ancestors: seq<RawTaxon>, key: string, d: Dataset): (r: Result<Dataset>)
    requires Ranked(data.taxons, rank)
    ensures r.Err? ==> r.error.TaxonNotFound?
    decreases Height(rank, key), 1
  {
    var t :- GetTaxon(data.taxons, key);
    var variants :- TaxonVariants(data.taxons, rank, env, locale, raw, t);
    var d1 := MergeAll(d, variants, facetKey, Breadcrumb(env, locale, ancestors, t));
    ChildIdsBelow(data.taxons, rank, t);
    VisitChildren(data, rank, env, locale, raw, facetKey, ancestors + [t], Height(rank, key), ChildIds(t), d1)
  }

  /** `ids.forEach(key => buildProductDataset_taxon(key, ancestors, ...))`: siblings
      share the same ancestor list. */
  function VisitChildren(data: RawData, ghost rank: map<string, nat>, env: Env, locale: string, raw: seq<RawProduct>,
                         facetKey: string, ancestors: seq<RawTaxon>, ghost bound: nat, ids: seq<string>, d: Dataset): (r: Result<Dataset>)
    requires Ranked(data.taxons, rank)
    requires forall k :: k in ids ==> Height(rank, k) < bound
    ensures r.Err? ==> r.error.TaxonNotFound?
    decreases bound, 0, |ids|
  {
    if ids == [] then Ok(d)
    else
      var d1 :- VisitTaxon(data, rank, env, locale, raw, facetKey, ancestors, ids[0], d);
      VisitChildren(data, rank, env, locale, raw, facetKey, ancestors, bound, ids[1..], d1)
  }

  /** `catalog.taxonomies.forEach(...)` from `d` on. */
  function VisitTaxonomies(data: RawData, ghost rank: map<string, nat>, env: Env, locale: string,
                           raw: seq<RawProduct>, keys: seq<string>, d: Dataset): (r: Result<Dataset>)
    requires Ranked(data.taxons, rank)
    ensures r.Err? ==> r.error.TaxonomyNotFound? || r.error.TaxonNotFound?
  {
    if keys == [] then Ok(d)
    else
      var taxonomy :- GetTaxonomy(data.taxonomies, keys[0]);
      var d1 :- VisitChildren(data, rank, env, locale, raw, taxonomy.facetKey, [], Bound(rank, taxonomy.taxons), taxonomy.taxons, d);
      VisitTaxonomies(data, rank, env, locale, raw, keys[1..], d1)
  }

  /** What `buildProductDataset(catalog, locale, raw)` returns or throws: no
      products give the empty dataset, and the only failures are the lookups of
      a missing taxonomy or taxon. */
  function DatasetOf(data: RawData, ghost rank: map<string, nat>, env: Env, catalog: RawCatalog,
                     locale: string, raw: seq<RawProduct>): (r: Result<Dataset>)
    requires Ranked(data.taxons, rank)
    ensures |raw| == 0 ==> r == Ok(Empty)
    ensures r.Err? ==> |raw| > 0 && (r.error.TaxonomyNotFound? || r.error.TaxonNotFound?)
  {
    if |raw| <= 0 then Ok(Empty)
    else VisitTaxonomies(data, rank, env, locale, raw, catalog.taxonomies, Empty)
  }

  // ---------------------------------------------------------------------------
  // The walk, as the source performs it: nested loops updating one dataset

  /** `buildProductDataset`: returns `{}` at once for an empty product list,
      otherwise walks every taxonomy of the catalog. */
  method BuildProductDataset(data: RawData, ghost rank: map<string, nat>, env: Env, catalog: RawCatalog,
                             locale: string, raw: seq<RawProduct>) returns (r: Result<Dataset>)
    requires Ranked(data.taxons, rank)
    ensures r == DatasetOf(data, rank, env, catalog, locale, raw)
    ensures |raw| == 0 ==> r == Ok(Empty)
  {
    if |raw| <= 0 {
      return Ok(Empty);
    }
    var d := Empty;
    var i := 0;
    while i < |catalog.taxonomies|
      invariant 0 <= i <= |catalog.taxonomies|
      invariant VisitTaxonomies(data, rank, env, locale, raw, catalog.taxonomies, Empty)
             == VisitTaxonomies(data, rank, env, locale, raw, catalog.taxonomies[i..], d)
    {
      var found := GetTaxonomy(data.taxonomies, catalog.taxonomies[i]);
      if found.Err? {
        return Err(found.error);
      }
      var taxonomy := found.value;
      ghost var bound := Bound(rank, taxonomy.taxons);
      ghost var start := d;
      var j := 0;
      while j < |taxonomy.taxons|
        invariant 0 <= j <= |taxonomy.taxons|
        invariant VisitChildren(data, rank, env, locale, raw, taxonomy.facetKey, [], bound, taxonomy.taxons, start)
               == VisitChildren(data, rank, env, locale, raw, taxonomy.facetKey, [], bound, taxonomy.taxons[j..], d)
      {
        var next := BuildTaxon(data, rank, env, locale, raw, taxonomy.facetKey, [], taxonomy.taxons[j], d);
        assert taxonomy.taxons[j..][1..] == taxonomy.taxons[j + 1..];
        if next.Err? {
          return Err(next.error);
        }
        d := next.value;
        j := j + 1;
      }
      assert catalog.taxonomies[i..][1..] == catalog.taxonomies[i + 1..];
      i := i + 1;
    }
    return Ok(d);
  }

  /** `variants.forEach(...)`: add the breadcrumb to each variant's facet list in turn. */
  method MergeVariants(d: Dataset, variants: seq<Product>, facetKey: string, crumb: string) returns (acc: Dataset)
    ensures acc == MergeAll(d, variants, facetKey, crumb)
  {
    acc := d;
    var k := 0;
    while k < |variants|
      invariant 0 <= k <= |variants|
      invariant acc == MergeAll(d, variants[..k], facetKey, crumb)
    {
      assert variants[..k + 1][..k] == variants[..k];
      acc := MergeProduct(acc, variants[k], facetKey, crumb);
      k := k + 1;
    }
    assert variants[..k] == variants;
  }

  /** A visit that finds the taxon and its variants continues with its children. */
  lemma VisitTaxonUnfold(data: RawData, rank: map<string, nat>, env: Env, locale: string, raw: seq<RawProduct>,
                         facetKey: string, ancestors: seq<RawTaxon>, key: string, d: Dataset)
    requires Ranked(data.taxons, rank)
    requires GetTaxon(data.taxons, key).Ok?
    requires FlattenReferences(data.taxons, rank, GetTaxon(data.taxons, key).value).Ok?
    ensures var t := GetTaxon(data.taxons, key).value;
            var refs := FlattenReferences(data.taxons, rank, t).value;
            var variants := env.flattenVariants(ResolveReferences(env, locale, raw, refs));
            && (forall k :: k in ChildIds(t) ==> Height(rank, k) < Height(rank, key))
            && VisitTaxon(data, rank, env, locale, raw, facetKey, ancestors, key, d)
               == VisitChildren(data, rank, env, locale, raw, facetKey, ancestors + [t], Height(rank, key), ChildIds(t),
                                MergeAll(d, variants, facetKey, Breadcrumb(env, locale, ancestors, t)))
  {
    var t := GetTaxon(data.taxons, key).value;
    ChildIdsBelow(data.taxons, rank, t);
  }

  /** `buildProductDataset_taxon`: record the taxon's breadcrumb for every variant
      found under it, then recurse into its children with the taxon appended to
      the ancestor list. */
  method BuildTaxon(data: RawData, ghost rank: map<string, nat>, env: Env, locale: string, raw: seq<RawProduct>,
                    facetKey: string, ancestors: seq<RawTaxon>, key: string, d: Dataset) returns (r: Result<Dataset>)
    requires Ranked(data.taxons, rank)
    ensures r == VisitTaxon(data, rank, env, locale, raw, facetKey, ancestors, key, d)
    decreases Height(rank, key)
  {
    var found := GetTaxon(data.taxons, key);
    if found.Err? {
      return Err(found.error);
    }
    var taxon := found.value;
    var refs := FlattenReferences(data.taxons, rank, taxon);
    if refs.Err? {
      return Err(refs.error);
    }
    var variants := env.flattenVariants(ResolveReferences(env, locale, raw, refs.value));
    var crumb := Breadcrumb(env, locale, ancestors, taxon);
    var acc := MergeVariants(d, variants, facetKey, crumb);
    VisitTaxonUnfold(data, rank, env, locale, raw, facetKey, ancestors, key, d);
    var ids := ChildIds(taxon);
    ghost var start := acc;
    var j := 0;
    while j < |ids|
      invariant 0 <= j <= |ids|
      invariant VisitChildren(data, rank, env, locale, raw, facetKey, ancestors + [taxon], Height(rank, key), ids, start)
             == VisitChildren(data, rank, env, locale, raw, facetKey, ancestors + [taxon], Height(rank, key), ids[j..], acc)
    {
      var next := BuildTaxon(data, rank, env, locale, raw, facetKey, ancestors + [taxon], ids[j], acc);
      assert ids[j..][1..] == ids[j + 1..];
      if next.Err? {
        return Err(next.error);
      }
      acc := next.value;
      j := j + 1;
    }
    return Ok(acc);
  }

  // ---------------------------------------------------------------------------
  // What the walk guarantees

  /** Visiting a taxon fails exactly when its id, or an id below it, names no
      taxon; otherwise it keeps the dataset valid, overwrites nothing, and leaves
      the taxon's breadcrumb in the facet list of every variant found under it. */
  lemma {:induction false} VisitTaxonSound(data: RawData, rank: map<string, nat>, env: Env, locale: string, raw: seq<RawProduct>,
                                           facetKey: string, ancestors: seq<RawTaxon>, key: string, d: Dataset)
    requires Ranked(data.taxons, rank) && Valid(d)
    ensures var r := VisitTaxon(data, rank, env, locale, raw, facetKey, ancestors, key, d);
            && (r.Ok? <==> HasTaxon(data.taxons, key) && Closed(data.taxons, rank, GetTaxon(data.taxons, key).value))
            && (r.Ok? ==> Valid(r.value) && Grows(d, r.value))
            && (r.Ok? ==> var t := GetTaxon(data.taxons, key).value;
                          forall p :: p in TaxonVariants(data.taxons, rank, env, locale, raw, t).value ==>
                            Breadcrumb(env, locale, ancestors, t) in FacetList(r.value, p.sku, facetKey))
    decreases Height(rank, key), 1
  {
    var r := VisitTaxon(data, rank, env, locale, raw, facetKey, ancestors, key, d);
    var found := GetTaxon(data.taxons, key);
    if found.Ok? {
      var t := found.value;
      FlattenReferencesOk(data.taxons, rank, t);
      var tv := TaxonVariants(data.taxons, rank, env, locale, raw, t);
      if tv.Ok? {
        var crumb := Breadcrumb(env, locale, ancestors, t);
        var d1 := MergeAll(d, tv.value, facetKey, crumb);
        MergeAllValid(d, tv.value, facetKey, crumb);
        ChildIdsBelow(data.taxons, rank, t);
        VisitChildrenSound(data, rank, env, locale, raw, facetKey, ancestors + [t], Height(rank, key), ChildIds(t), d1);
        assert r == VisitChildren(data, rank, env, locale, raw, facetKey, ancestors + [t], Height(rank, key), ChildIds(t), d1);
        if r.Ok? {
          GrowsTransitive(d, d1, r.value);
          forall p | p in tv.value ensures crumb in FacetList(r.value, p.sku, facetKey) {
            GrowsFacet(d1, r.value, p.sku, facetKey);
          }
        }
      }
    }
  }

  lemma {:induction false} VisitChildrenSound(data: RawData, rank: map<string, nat>, env: Env, locale: string, raw: seq<RawProduct>,
                                              facetKey: string, ancestors: seq<RawTaxon>, bound: nat, ids: seq<string>, d: Dataset)
    requires Ranked(data.taxons, rank) && Valid(d)
    requires forall k :: k in ids ==> Height(rank, k) < bound
    ensures var r := VisitChildren(data, rank, env, locale, raw, facetKey, ancestors, bound, ids, d);
            && (r.Ok? <==> forall k :: k in ids ==> HasTaxon(data.taxons, k) && Closed(data.taxons, rank, GetTaxon(data.taxons, k).value))
            && (r.Ok? ==> Valid(r.value) && Grows(d, r.value))
    decreases bound, 0, |ids|
  {
    if ids != [] {
      VisitTaxonSound(data, rank, env, locale, raw, facetKey, ancestors, ids[0], d);
      var first := VisitTaxon(data, rank, env, locale, raw, facetKey, ancestors, ids[0], d);
      assert forall k :: k in ids <==> k == ids[0] || k in ids[1..];
      if first.Ok? {
        VisitChildrenSound(data, rank, env, locale, raw, facetKey, ancestors, bound, ids[1..], first.value);
        var r := VisitChildren(data, rank, env, locale, raw, facetKey, ancestors, bound, ids[1..], first.value);
        if r.Ok? {
          GrowsTransitive(d, first.value, r.value);
        }
      }
    }
  }

  lemma {:induction false} VisitTaxonomiesSound(data: RawData, rank: map<string, nat>, env: Env, locale: string,
                                                raw: seq<RawProduct>, keys: seq<string>, d: Dataset)
    requires Ranked(data.taxons, rank) && Valid(d)
    ensures var r := VisitTaxonomies(data, rank, env, locale, raw, keys, d);
            && (r.Ok? <==> forall k :: k in keys ==>
                  HasTaxonomy(data.taxonomies, k) &&
                  TaxonomyClosed(data.taxons, rank, GetTaxonomy(data.taxonomies, k).value))
            && (r.Ok? ==> Valid(r.value) && Grows(d, r.value))
  {
    if keys != [] {
      assert forall k :: k in keys <==> k == keys[0] || k in keys[1..];
      var found := GetTaxonomy(data.taxonomies, keys[0]);
      if found.Ok? {
        var taxonomy := found.value;
        VisitChildrenSound(data, rank, env, locale, raw, taxonomy.facetKey, [], Bound(rank, taxonomy.taxons), taxonomy.taxons, d);
        var d1 := VisitChildren(data, rank, env, locale, raw, taxonomy.facetKey, [], Bound(rank, taxonomy.taxons), taxonomy.taxons, d);
        if d1.Ok? {
          VisitTaxonomiesSound(data, rank, env, locale, raw, keys[1..], d1.value);
          var r := VisitTaxonomies(data, rank, env, locale, raw, keys[1..], d1.value);
          if r.Ok? {
            GrowsTransitive(d, d1.value, r.value);
          }
        }
      }
    }
  }

  /** The dataset is built without failure exactly when the product list is empty
      (no walk at all) or every id the catalog reaches names a record; a built
      dataset lists each SKU once and no breadcrumb twice. */
  lemma DatasetOfSound(data: RawData, rank: map<string, nat>, env: Env, catalog: RawCatalog,
                       locale: string, raw: seq<RawProduct>)
    requires Ranked(data.taxons, rank)
    ensures var r := DatasetOf(data, rank, env, catalog, locale, raw);
            && (r.Ok? <==> |raw| == 0 || CatalogClosed(data, rank, catalog))
            && (r.Ok? ==> Valid(r.value))
  {
    VisitTaxonomiesSound(data, rank, env, locale, raw, catalog.taxonomies, Empty);
  }
}
