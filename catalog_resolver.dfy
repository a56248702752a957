/** `getCatalog` and the `resolve*` functions of data/catalogs.ts: the raw records
    joined by id into a nested tree resolved for one locale, with the directly
    referenced products attached to each taxon. */
module CatalogResolver {
  import opened Results
  import opened Sequences
  import opened CatalogData
  import opened ProductDataset

  /** A resolved taxon: label and description translated, children always present. */
  datatype Taxon = Taxon(
    id: string,
    name: string,
    labelText: string,
    description: string,
    slug: string,
    image: Option<string>,
    taxons: seq<Taxon>,
    products: seq<Product>)

  datatype Taxonomy = Taxonomy(id: string, facetKey: string, name: string, taxons: seq<Taxon>)

  datatype Catalog = Catalog(id: string, name: string, taxonomies: seq<Taxonomy>)

  /** `...(taxon.image ? { image } : {})`: an empty string is falsy and dropped too. */
  function ImageOf(t: RawTaxon): (image: Option<string>)
    ensures image.Some? <==> t.image.Some? && t.image.value != ""
    ensures image.Some? ==> image == t.image
  {
    if t.image.Some? && t.image.value != "" then t.image else None
  }

  /** `resolveTaxon`: the children resolved recursively in child-id order; the
      products are the directly referenced ones, and only when a product list was
      given. */
  function ResolveTaxon(taxons: seq<RawTaxon>, ghost rank: map<string, nat>, env: Env, locale: string,
                        productList: seq<Entry>, t: RawTaxon): (r: Result<Taxon>)
    requires Ranked(taxons, rank) && t in taxons
    ensures r.Ok? ==> && r.value.id == t.id && r.value.name == t.name && r.value.slug == t.slug
                      && r.value.labelText == env.translate(t.labelText, locale)
                      && r.value.description == env.translate(t.description, locale)
                      && r.value.image == ImageOf(t)
    ensures r.Ok? ==> |r.value.taxons| == |ChildIds(t)| &&
                      forall i :: 0 <= i < |ChildIds(t)| ==> r.value.taxons[i].id == ChildIds(t)[i]
    ensures r.Ok? && t.taxons.None? ==> r.value.taxons == []
    ensures r.Err? ==> r.error.TaxonNotFound?
    ensures r.Ok? && productList == [] ==> r.value.products == []
    ensures r.Ok? && productList != [] ==>
              |r.value.products| == |t.references| &&
              forall i :: 0 <= i < |t.references| ==>
                r.value.products[i] == env.datasetProduct(t.references[i], locale, productList)
    decreases Height(rank, t.id), 1
  {
    var children :- GetTaxons(taxons, ChildIds(t));
    ChildrenBelow(taxons, rank, t, children);
    var resolved :- ResolveEach(taxons, rank, env, locale, productList, Height(rank, t.id), children);
    Ok(Taxon(
      t.id,
      t.name,
      env.translate(t.labelText, locale),
      env.translate(t.description, locale),
      t.slug,
      ImageOf(t),
      resolved,
      if |productList| > 0 then
        seq(|t.references|, i requires 0 <= i < |t.references| => env.datasetProduct(t.references[i], locale, productList))
      else []))
  }

  /** `children.map(t => resolveTaxon(t, ...))`. */
  function ResolveEach(taxons: seq<RawTaxon>, ghost rank: map<string, nat>, env: Env, locale: string,
                       productList: seq<Entry>, ghost bound: nat, ts: seq<RawTaxon>): (r: Result<seq<Taxon>>)
    requires Ranked(taxons, rank)
    requires forall i :: 0 <= i < |ts| ==> ts[i] in taxons && Height(rank, ts[i].id) < bound
    ensures r.Ok? ==> |r.value| == |ts| && forall i :: 0 <= i < |ts| ==> r.value[i].id == ts[i].id
    ensures r.Err? ==> r.error.TaxonNotFound?
    decreases bound, 0, |ts|
  {
    if ts == [] then Ok([])
    else
      var head :- ResolveTaxon(taxons, rank, env, locale, productList, ts[0]);
      var tail :- ResolveEach(taxons, rank, env, locale, productList, bound, ts[1..]);
      Ok([head] + tail)
  }

  /** `resolveTaxonomy`: the taxons follow the taxonomy's id list. */
  function ResolveTaxonomy(taxons: seq<RawTaxon>, ghost rank: map<string, nat>, env: Env, locale: string,
                           productList: seq<Entry>, taxonomy: RawTaxonomy): (r: Result<Taxonomy>)
    requires Ranked(taxons, rank)
    ensures r.Ok? ==> r.value.id == taxonomy.id && r.value.facetKey == taxonomy.facetKey && r.value.name == taxonomy.name
    ensures r.Ok? ==> |r.value.taxons| == |taxonomy.taxons| &&
                      forall i :: 0 <= i < |taxonomy.taxons| ==> r.value.taxons[i].id == taxonomy.taxons[i]
    ensures r.Err? ==> r.error.TaxonNotFound?
  {
    var roots :- GetTaxons(taxons, taxonomy.taxons);
    assert forall i :: 0 <= i < |roots| ==> taxonomy.taxons[i] in taxonomy.taxons;
    var resolved :- ResolveEach(taxons, rank, env, locale, productList, Bound(rank, taxonomy.taxons), roots);
    Ok(Taxonomy(taxonomy.id, taxonomy.facetKey, taxonomy.name, resolved))
  }

  /** `catalog.taxonomies.map(getTaxonomy)` then each resolved against
      `Object.values(productDataset)`. */
  function ResolveTaxonomies(data: RawData, ghost rank: map<string, nat>, env: Env, locale: string,
                             productList: seq<Entry>, ts: seq<RawTaxonomy>): (r: Result<seq<Taxonomy>>)
    requires Ranked(data.taxons, rank)
    ensures r.Ok? ==> |r.value| == |ts| && forall i :: 0 <= i < |ts| ==> r.value[i].id == ts[i].id
    ensures r.Err? ==> r.error.TaxonNotFound?
  {
    if ts == [] then Ok([])
    else
      var head :- ResolveTaxonomy(data.taxons, rank, env, locale, productList, ts[0]);
      var tail :- ResolveTaxonomies(data, rank, env, locale, productList, ts[1..]);
      Ok([head] + tail)
  }

  /** `resolveCatalog`: the taxonomies follow the catalog's id list. */
  function ResolveCatalog(data: RawData, ghost rank: map<string, nat>, env: Env, catalog: RawCatalog,
                          locale: string, dataset: Dataset): (r: Result<Catalog>)
    requires Ranked(data.taxons, rank)
    ensures r.Ok? ==> r.value.id == catalog.id && r.value.name == catalog.name
    ensures r.Ok? ==> |r.value.taxonomies| == |catalog.taxonomies| &&
                      forall i :: 0 <= i < |catalog.taxonomies| ==> r.value.taxonomies[i].id == catalog.taxonomies[i]
    ensures r.Err? ==> r.error.TaxonomyNotFound? || r.error.TaxonNotFound?
  {
    var raws :- GetTaxonomies(data.taxonomies, catalog.taxonomies);
    var resolved :- ResolveTaxonomies(data, rank, env, locale, Values(dataset), raws);
    Ok(Catalog(catalog.id, catalog.name, resolved))
  }

  /** `getCatalog`: the catalog named after the locale's country when the locale is
      shoppable, after its language otherwise; the product dataset is built first,
      then the catalog is resolved against its values. */
  method GetCatalog(data: RawData, ghost rank: map<string, nat>, env: Env, locale: Locale,
                    raw: seq<RawProduct>) returns (r: Result<Catalog>)
    requires Ranked(data.taxons, rank)
    ensures !HasCatalog(data.catalogs, CatalogName(locale)) ==> r == Err(CatalogNotFound(CatalogName(locale)))
    ensures HasCatalog(data.catalogs, CatalogName(locale)) && r.Err? ==>
              r.error.TaxonomyNotFound? || r.error.TaxonNotFound?
    ensures r.Ok? <==> HasCatalog(data.catalogs, CatalogName(locale)) &&
                       CatalogClosed(data, rank, FindCatalog(data.catalogs, CatalogName(locale)).value)
    ensures r.Ok? ==> r.value.name == CatalogName(locale) &&
                      r.value.id == FindCatalog(data.catalogs, CatalogName(locale)).value.id
    ensures r.Ok? ==>
              var catalog := FindCatalog(data.catalogs, CatalogName(locale)).value;
              DatasetOf(data, rank, env, catalog, locale.code, raw).Ok? &&
              r == ResolveCatalog(data, rank, env, catalog, locale.code,
                                  DatasetOf(data, rank, env, catalog, locale.code, raw).value)
  {
    var name := CatalogName(locale);
    var found := FindCatalog(data.catalogs, name);
    if found.None? {
      return Err(CatalogNotFound(name));
    }
    var catalog := found.value;
    var dataset := BuildProductDataset(data, rank, env, catalog, locale.code, raw);
    DatasetOfSound(data, rank, env, catalog, locale.code, raw);
    ResolveCatalogOk(data, rank, env, catalog, locale.code, if dataset.Ok? then dataset.value else Empty);
    if dataset.Err? {
      return Err(dataset.error);
    }
    r := ResolveCatalog(data, rank, env, catalog, locale.code, dataset.value);
  }

  // ---------------------------------------------------------------------------
  // Each nested element is the resolution of the record its id names

  /** `children.map(resolveTaxon)`: element `i` is the resolution of `ts[i]`. */
  lemma {:induction false} ResolveEachElems(taxons: seq<RawTaxon>, rank: map<string, nat>, env: Env, locale: string,
                                            productList: seq<Entry>, bound: nat, ts: seq<RawTaxon>)
    requires Ranked(taxons, rank)
    requires forall i :: 0 <= i < |ts| ==> ts[i] in taxons && Height(rank, ts[i].id) < bound
    requires ResolveEach(taxons, rank, env, locale, productList, bound, ts).Ok?
    ensures forall i :: 0 <= i < |ts| ==>
              && ResolveTaxon(taxons, rank, env, locale, productList, ts[i]).Ok?
              && ResolveEach(taxons, rank, env, locale, productList, bound, ts).value[i]
                 == ResolveTaxon(taxons, rank, env, locale, productList, ts[i]).value
    decreases |ts|
  {
    if ts != [] {
      ResolveEachElems(taxons, rank, env, locale, productList, bound, ts[1..]);
      assert forall i :: 1 <= i < |ts| ==> ts[i] == ts[1..][i - 1];
    }
  }

  /** A resolved taxon's `i`-th child is the resolution of the taxon named by
      its `i`-th child id. */
  lemma ResolveTaxonChildren(taxons: seq<RawTaxon>, rank: map<string, nat>, env: Env, locale: string,
                             productList: seq<Entry>, t: RawTaxon)
    requires Ranked(taxons, rank) && t in taxons
    requires ResolveTaxon(taxons, rank, env, locale, productList, t).Ok?
    ensures forall i :: 0 <= i < |ChildIds(t)| ==>
              && HasTaxon(taxons, ChildIds(t)[i])
              && ResolveTaxon(taxons, rank, env, locale, productList, GetTaxon(taxons, ChildIds(t)[i]).value).Ok?
              && ResolveTaxon(taxons, rank, env, locale, productList, t).value.taxons[i]
                 == ResolveTaxon(taxons, rank, env, locale, productList, GetTaxon(taxons, ChildIds(t)[i]).value).value
  {
    var children := GetTaxons(taxons, ChildIds(t)).value;
    ChildrenBelow(taxons, rank, t, children);
    ResolveEachElems(taxons, rank, env, locale, productList, Height(rank, t.id), children);
    forall i | 0 <= i < |ChildIds(t)| ensures HasTaxon(taxons, ChildIds(t)[i]) {
      assert ChildIds(t)[i] in ChildIds(t);
    }
  }

  /** A resolved taxonomy's `i`-th taxon is the resolution of the taxon its
      `i`-th id names. */
  lemma ResolveTaxonomyTaxons(taxons: seq<RawTaxon>, rank: map<string, nat>, env: Env, locale: string,
                              productList: seq<Entry>, taxonomy: RawTaxonomy)
    requires Ranked(taxons, rank)
    requires ResolveTaxonomy(taxons, rank, env, locale, productList, taxonomy).Ok?
    ensures forall i :: 0 <= i < |taxonomy.taxons| ==>
              && HasTaxon(taxons, taxonomy.taxons[i])
              && ResolveTaxon(taxons, rank, env, locale, productList, GetTaxon(taxons, taxonomy.taxons[i]).value).Ok?
              && ResolveTaxonomy(taxons, rank, env, locale, productList, taxonomy).value.taxons[i]
                 == ResolveTaxon(taxons, rank, env, locale, productList, GetTaxon(taxons, taxonomy.taxons[i]).value).value
  {
    var roots := GetTaxons(taxons, taxonomy.taxons).value;
    assert forall i :: 0 <= i < |roots| ==> taxonomy.taxons[i] in taxonomy.taxons;
    ResolveEachElems(taxons, rank, env, locale, productList, Bound(rank, taxonomy.taxons), roots);
  }

  /** `taxonomies.map(resolveTaxonomy)`: element `i` is the resolution of `ts[i]`. */
  lemma {:induction false} ResolveTaxonomiesElems(data: RawData, rank: map<string, nat>, env: Env, locale: string,
                                                  productList: seq<Entry>, ts: seq<RawTaxonomy>)
    requires Ranked(data.taxons, rank)
    requires ResolveTaxonomies(data, rank, env, locale, productList, ts).Ok?
    ensures forall i :: 0 <= i < |ts| ==>
              && ResolveTaxonomy(data.taxons, rank, env, locale, productList, ts[i]).Ok?
              && ResolveTaxonomies(data, rank, env, locale, productList, ts).value[i]
                 == ResolveTaxonomy(data.taxons, rank, env, locale, productList, ts[i]).value
  {
    if ts != [] {
      ResolveTaxonomiesElems(data, rank, env, locale, productList, ts[1..]);
      assert forall i :: 1 <= i < |ts| ==> ts[i] == ts[1..][i - 1];
    }
  }

  /** A resolved catalog's `i`-th taxonomy is the resolution, against the values
      of the dataset, of the taxonomy its `i`-th id names. */
  lemma ResolveCatalogTaxonomies(data: RawData, rank: map<string, nat>, env: Env, catalog: RawCatalog,
                                 locale: string, dataset: Dataset)
    requires Ranked(data.taxons, rank)
    requires ResolveCatalog(data, rank, env, catalog, locale, dataset).Ok?
    ensures forall i :: 0 <= i < |catalog.taxonomies| ==>
              && HasTaxonomy(data.taxonomies, catalog.taxonomies[i])
              && ResolveTaxonomy(data.taxons, rank, env, locale, Values(dataset),
                                 GetTaxonomy(data.taxonomies, catalog.taxonomies[i]).value).Ok?
              && ResolveCatalog(data, rank, env, catalog, locale, dataset).value.taxonomies[i]
                 == ResolveTaxonomy(data.taxons, rank, env, locale, Values(dataset),
                                    GetTaxonomy(data.taxonomies, catalog.taxonomies[i]).value).value
  {
    var raws := GetTaxonomies(data.taxonomies, catalog.taxonomies).value;
    ResolveTaxonomiesElems(data, rank, env, locale, Values(dataset), raws);
  }

  // ---------------------------------------------------------------------------
  // Resolution fails exactly on a dangling id

  lemma {:induction false} ResolveTaxonOk(taxons: seq<RawTaxon>, rank: map<string, nat>, env: Env, locale: string,
                                          productList: seq<Entry>, t: RawTaxon)
    requires Ranked(taxons, rank) && t in taxons
    ensures ResolveTaxon(taxons, rank, env, locale, productList, t).Ok? <==> Closed(taxons, rank, t)
    decreases Height(rank, t.id), 1
  {
    var ids := ChildIds(t);
    var g := GetTaxons(taxons, ids);
    if g.Ok? {
      var children := g.value;
      ChildrenBelow(taxons, rank, t, children);
      ResolveEachOk(taxons, rank, env, locale, productList, Height(rank, t.id), children);
      assert (forall i :: 0 <= i < |children| ==> Closed(taxons, rank, children[i])) <==> Closed(taxons, rank, t) by {
        forall c | c in ids ensures HasTaxon(taxons, c) && children[IndexOf(ids, c)] == GetTaxon(taxons, c).value {
        }
      }
    } else {
      var i :| 0 <= i < |ids| && !HasTaxon(taxons, ids[i]);
      assert ids[i] in ids;
    }
  }

  lemma {:induction false} ResolveEachOk(taxons: seq<RawTaxon>, rank: map<string, nat>, env: Env, locale: string,
                                         productList: seq<Entry>, bound: nat, ts: seq<RawTaxon>)
    requires Ranked(taxons, rank)
    requires forall i :: 0 <= i < |ts| ==> ts[i] in taxons && Height(rank, ts[i].id) < bound
    ensures ResolveEach(taxons, rank, env, locale, productList, bound, ts).Ok? <==>
            forall i :: 0 <= i < |ts| ==> Closed(taxons, rank, ts[i])
    decreases bound, 0, |ts|
  {
    if ts != [] {
      ResolveTaxonOk(taxons, rank, env, locale, productList, ts[0]);
      ResolveEachOk(taxons, rank, env, locale, productList, bound, ts[1..]);
      assert forall i :: 1 <= i < |ts| ==> ts[i] == ts[1..][i - 1];
    }
  }

  lemma ResolveTaxonomyOk(taxons: seq<RawTaxon>, rank: map<string, nat>, env: Env, locale: string,
                          productList: seq<Entry>, taxonomy: RawTaxonomy)
    requires Ranked(taxons, rank)
    ensures ResolveTaxonomy(taxons, rank, env, locale, productList, taxonomy).Ok? <==>
            TaxonomyClosed(taxons, rank, taxonomy)
  {
    var ids := taxonomy.taxons;
    var g := GetTaxons(taxons, ids);
    if g.Ok? {
      var roots := g.value;
      assert forall i :: 0 <= i < |roots| ==> ids[i] in ids;
      ResolveEachOk(taxons, rank, env, locale, productList, Bound(rank, ids), roots);
      forall c | c in ids ensures HasTaxon(taxons, c) && roots[IndexOf(ids, c)] == GetTaxon(taxons, c).value {
      }
    } else {
      var i :| 0 <= i < |ids| && !HasTaxon(taxons, ids[i]);
      assert ids[i] in ids;
    }
  }

  lemma {:induction false} ResolveTaxonomiesOk(data: RawData, rank: map<string, nat>, env: Env, locale: string,
                                               productList: seq<Entry>, ts: seq<RawTaxonomy>)
    requires Ranked(data.taxons, rank)
    ensures ResolveTaxonomies(data, rank, env, locale, productList, ts).Ok? <==>
            forall i :: 0 <= i < |ts| ==> TaxonomyClosed(data.taxons, rank, ts[i])
  {
    if ts != [] {
      ResolveTaxonomyOk(data.taxons, rank, env, locale, productList, ts[0]);
      ResolveTaxonomiesOk(data, rank, env, locale, productList, ts[1..]);
      assert forall i :: 1 <= i < |ts| ==> ts[i] == ts[1..][i - 1];
    }
  }

  /** Resolving a catalog fails exactly when one of the ids it reaches names no
      record; the product dataset plays no part in it. */
  lemma ResolveCatalogOk(data: RawData, rank: map<string, nat>, env: Env, catalog: RawCatalog,
                         locale: string, dataset: Dataset)
    requires Ranked(data.taxons, rank)
    ensures ResolveCatalog(data, rank, env, catalog, locale, dataset).Ok? <==> CatalogClosed(data, rank, catalog)
  {
    var ids := catalog.taxonomies;
    var g := GetTaxonomies(data.taxonomies, ids);
    if g.Ok? {
      var raws := g.value;
      ResolveTaxonomiesOk(data, rank, env, locale, Values(dataset), raws);
      forall c | c in ids ensures HasTaxonomy(data.taxonomies, c) && raws[IndexOf(ids, c)] == GetTaxonomy(data.taxonomies, c).value {
      }
    } else {
      var i :| 0 <= i < |ids| && !HasTaxonomy(data.taxonomies, ids[i]);
      assert ids[i] in ids;
    }
  }
}
