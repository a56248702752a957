/** What `buildProductDataset` of data/catalogs.ts leaves in the dataset. The walk
    is described on its own, as the sequence of visits it makes (a variant, the
    facet key of its taxonomy and the breadcrumb of the taxon it was found
    under, in walk order), and the built dataset is characterised by that
    sequence alone: its keys, the record kept per SKU and every facet list. */
module DatasetContents {
  import opened Results
  import opened Sequences
  import opened CatalogData
  import opened ProductDataset

  /** One iteration of the innermost `forEach`: `product` found under a taxon
      whose breadcrumb is `crumb`, in a taxonomy with facet key `facetKey`. */
  datatype Visit = Visit(product: Product, facetKey: string, crumb: string)

  /** The visits made at one taxon: every variant, with the same facet key and crumb. */
  function Stamp(variants: seq<Product>, facetKey: string, crumb: string): (r: seq<Visit>)
    ensures |r| == |variants| && forall i :: 0 <= i < |variants| ==> r[i] == Visit(variants[i], facetKey, crumb)
  {
    seq(|variants|, i requires 0 <= i < |variants| => Visit(variants[i], facetKey, crumb))
  }

  /** The SKU of every visit, in walk order. */
  function Skus(vs: seq<Visit>): (r: seq<string>)
    ensures |r| == |vs| && forall i :: 0 <= i < |vs| ==> r[i] == vs[i].product.sku
  {
    if vs == [] then [] else Skus(vs[..|vs| - 1]) + [vs[|vs| - 1].product.sku]
  }

  /** The crumbs of the visits of `sku` under `facetKey`, in walk order. */
  function CrumbsOf(vs: seq<Visit>, sku: string, facetKey: string): (r: seq<string>)
    ensures forall c :: c in r <==>
              exists i :: 0 <= i < |vs| && vs[i] == Visit(vs[i].product, facetKey, c) && vs[i].product.sku == sku
  {
    if vs == [] then []
    else
      var front, v := vs[..|vs| - 1], vs[|vs| - 1];
      assert forall i :: 0 <= i < |front| ==> front[i] == vs[i];
      CrumbsOf(front, sku, facetKey) + (if v.product.sku == sku && v.facetKey == facetKey then [v.crumb] else [])
  }

  /** The visits applied one after the other to `d`. */
  function MergeVisits(d: Dataset, vs: seq<Visit>): Dataset
  {
    if vs == [] then d
    else
      var v := vs[|vs| - 1];
      MergeProduct(MergeVisits(d, vs[..|vs| - 1]), v.product, v.facetKey, v.crumb)
  }

  /** The outcome of a walk applied to `d`: its dataset, or its error. */
  function Apply(d: Dataset, w: Result<seq<Visit>>): Result<Dataset>
  {
    if w.Ok? then Ok(MergeVisits(d, w.value)) else Err(w.error)
  }

  // ---------------------------------------------------------------------------
  // The walk, as the sequence of visits

  /** The visits made from taxon `key` down, or the first lookup failure. */
  ghost function WalkTaxon(data: RawData, rank: map<string, nat>, env: Env, locale: string, raw: seq<RawProduct>,
                           facetKey: string, ancestors: seq<RawTaxon>, key: string): Result<seq<Visit>>
    requires Ranked(data.taxons, rank)
    decreases Height(rank, key), 1
  {
    var t :- GetTaxon(data.taxons, key);
    var variants :- TaxonVariants(data.taxons, rank, env, locale, raw, t);
    ChildIdsBelow(data.taxons, rank, t);
    var below :- WalkChildren(data, rank, env, locale, raw, facetKey, ancestors + [t], Height(rank, key), ChildIds(t));
    Ok(Stamp(variants, facetKey, Breadcrumb(env, locale, ancestors, t)) + below)
  }

  ghost function WalkChildren(data: RawData, rank: map<string, nat>, env: Env, locale: string, raw: seq<RawProduct>,
                              facetKey: string, ancestors: seq<RawTaxon>, bound: nat, ids: seq<string>): Result<seq<Visit>>
    requires Ranked(data.taxons, rank)
    requires forall k :: k in ids ==> Height(rank, k) < bound
    decreases bound, 0, |ids|
  {
    if ids == [] then Ok([])
    else
      var first :- WalkTaxon(data, rank, env, locale, raw, facetKey, ancestors, ids[0]);
      var rest :- WalkChildren(data, rank, env, locale, raw, facetKey, ancestors, bound, ids[1..]);
      Ok(first + rest)
  }

  /** The visits of the whole catalog: each taxonomy's root taxons in turn. */
  ghost function WalkTaxonomies(data: RawData, rank: map<string, nat>, env: Env, locale: string,
                                raw: seq<RawProduct>, keys: seq<string>): Result<seq<Visit>>
    requires Ranked(data.taxons, rank)
  {
    if keys == [] then Ok([])
    else
      var taxonomy :- GetTaxonomy(data.taxonomies, keys[0]);
      var first :- WalkChildren(data, rank, env, locale, raw, taxonomy.facetKey, [], Bound(rank, taxonomy.taxons), taxonomy.taxons);
      var rest :- WalkTaxonomies(data, rank, env, locale, raw, keys[1..]);
      Ok(first + rest)
  }

  // ---------------------------------------------------------------------------
  // The dataset walk applies exactly these visits

  lemma {:induction false} MergeVisitsAppend(d: Dataset, a: seq<Visit>, b: seq<Visit>)
    ensures MergeVisits(d, a + b) == MergeVisits(MergeVisits(d, a), b)
    decreases |b|
  {
    if b == [] {
      assert a + b == a;
    } else {
      var n := |b| - 1;
      assert (a + b)[..|a + b| - 1] == a + b[..n];
      assert (a + b)[|a + b| - 1] == b[n];
      MergeVisitsAppend(d, a, b[..n]);
    }
  }

  lemma {:induction false} MergeAllIsVisits(d: Dataset, variants: seq<Product>, facetKey: string, crumb: string)
    ensures MergeAll(d, variants, facetKey, crumb) == MergeVisits(d, Stamp(variants, facetKey, crumb))
  {
    if variants != [] {
      var n := |variants| - 1;
      var vs := Stamp(variants, facetKey, crumb);
      MergeAllIsVisits(d, variants[..n], facetKey, crumb);
      assert vs[..|vs| - 1] == Stamp(variants[..n], facetKey, crumb);
      assert vs[|vs| - 1] == Visit(variants[n], facetKey, crumb);
    }
  }

  /** Visiting a taxon fails with the walk's error, or applies the walk's visits. */
  lemma {:induction false} VisitTaxonIsWalk(data: RawData, rank: map<string, nat>, env: Env, locale: string, raw: seq<RawProduct>,
                                            facetKey: string, ancestors: seq<RawTaxon>, key: string, d: Dataset)
    requires Ranked(data.taxons, rank)
    ensures VisitTaxon(data, rank, env, locale, raw, facetKey, ancestors, key, d)
         == Apply(d, WalkTaxon(data, rank, env, locale, raw, facetKey, ancestors, key))
    decreases Height(rank, key), 1
  {
    var found := GetTaxon(data.taxons, key);
    if found.Ok? {
      var t := found.value;
      var tv := TaxonVariants(data.taxons, rank, env, locale, raw, t);
      if tv.Ok? {
        var crumb := Breadcrumb(env, locale, ancestors, t);
        VisitTaxonUnfold(data, rank, env, locale, raw, facetKey, ancestors, key, d);
        MergeAllIsVisits(d, tv.value, facetKey, crumb);
        var d1 := MergeVisits(d, Stamp(tv.value, facetKey, crumb));
        VisitChildrenIsWalk(data, rank, env, locale, raw, facetKey, ancestors + [t], Height(rank, key), ChildIds(t), d1);
        var below := WalkChildren(data, rank, env, locale, raw, facetKey, ancestors + [t], Height(rank, key), ChildIds(t));
        if below.Ok? {
          MergeVisitsAppend(d, Stamp(tv.value, facetKey, crumb), below.value);
        }
      }
    }
  }

  lemma {:induction false} VisitChildrenIsWalk(data: RawData, rank: map<string, nat>, env: Env, locale: string, raw: seq<RawProduct>,
                                               facetKey: string, ancestors: seq<RawTaxon>, bound: nat, ids: seq<string>, d: Dataset)
    requires Ranked(data.taxons, rank)
    requires forall k :: k in ids ==> Height(rank, k) < bound
    ensures VisitChildren(data, rank, env, locale, raw, facetKey, ancestors, bound, ids, d)
         == Apply(d, WalkChildren(data, rank, env, locale, raw, facetKey, ancestors, bound, ids))
    decreases bound, 0, |ids|
  {
    if ids != [] {
      assert forall k :: k in ids[1..] ==> k in ids;
      VisitTaxonIsWalk(data, rank, env, locale, raw, facetKey, ancestors, ids[0], d);
      var first := WalkTaxon(data, rank, env, locale, raw, facetKey, ancestors, ids[0]);
      if first.Ok? {
        var d1 := MergeVisits(d, first.value);
        VisitChildrenIsWalk(data, rank, env, locale, raw, facetKey, ancestors, bound, ids[1..], d1);
        var rest := WalkChildren(data, rank, env, locale, raw, facetKey, ancestors, bound, ids[1..]);
        if rest.Ok? {
          MergeVisitsAppend(d, first.value, rest.value);
        }
      }
    }
  }

  lemma {:induction false} VisitTaxonomiesIsWalk(data: RawData, rank: map<string, nat>, env: Env, locale: string,
                                                 raw: seq<RawProduct>, keys: seq<string>, d: Dataset)
    requires Ranked(data.taxons, rank)
    ensures VisitTaxonomies(data, rank, env, locale, raw, keys, d)
         == Apply(d, WalkTaxonomies(data, rank, env, locale, raw, keys))
  {
    if keys != [] {
      var found := GetTaxonomy(data.taxonomies, keys[0]);
      if found.Ok? {
        var taxonomy := found.value;
        VisitChildrenIsWalk(data, rank, env, locale, raw, taxonomy.facetKey, [], Bound(rank, taxonomy.taxons), taxonomy.taxons, d);
        var first := WalkChildren(data, rank, env, locale, raw, taxonomy.facetKey, [], Bound(rank, taxonomy.taxons), taxonomy.taxons);
        if first.Ok? {
          var d1 := MergeVisits(d, first.value);
          VisitTaxonomiesIsWalk(data, rank, env, locale, raw, keys[1..], d1);
          var rest := WalkTaxonomies(data, rank, env, locale, raw, keys[1..]);
          if rest.Ok? {
            MergeVisitsAppend(d, first.value, rest.value);
          }
        }
      }
    }
  }

  // ---------------------------------------------------------------------------
  // What a sequence of visits leaves in an empty dataset

  /** `d` holds exactly what the visits `vs` record: one key per SKU in order of
      first visit, the record of the first visit of each SKU, and for every SKU
      and facet key the distinct crumbs of its visits in walk order. */
  ghost predicate Records(d: Dataset, vs: seq<Visit>)
  {
    && Valid(d)
    && d.keys == Uniq(Skus(vs))
    && FirstProducts(d, vs)
    && (forall sku, facetKey :: FacetList(d, sku, facetKey) == Uniq(CrumbsOf(vs, sku, facetKey)))
  }

  /** Every stored SKU was visited, and its record is that of its first visit. */
  ghost predicate FirstProducts(d: Dataset, vs: seq<Visit>)
  {
    forall sku :: sku in d.entries ==>
      sku in Skus(vs) && d.entries[sku].product == vs[IndexOf(Skus(vs), sku)].product
  }

  /** Every visit is in the dataset: its SKU is a key, and its breadcrumb is listed
      under its facet key. */
  lemma RecordsHoldVisits(d: Dataset, vs: seq<Visit>)
    requires Records(d, vs)
    ensures forall i :: 0 <= i < |vs| ==>
              vs[i].product.sku in d.entries &&
              vs[i].crumb in FacetList(d, vs[i].product.sku, vs[i].facetKey)
  {
    UniqMembers(Skus(vs));
    forall i | 0 <= i < |vs|
      ensures vs[i].product.sku in d.entries
      ensures vs[i].crumb in FacetList(d, vs[i].product.sku, vs[i].facetKey)
    {
      var v := vs[i];
      assert Skus(vs)[i] == v.product.sku;
      assert v == Visit(v.product, v.facetKey, v.crumb);
      assert v.crumb in CrumbsOf(vs, v.product.sku, v.facetKey);
      UniqMembers(CrumbsOf(vs, v.product.sku, v.facetKey));
    }
  }

  /** Nothing is in the dataset that no visit put there: every breadcrumb listed
      under a SKU and facet key comes from a visit of that SKU under that key. */
  lemma RecordsOnlyVisits(d: Dataset, vs: seq<Visit>, sku: string, facetKey: string, crumb: string)
    requires Records(d, vs)
    requires crumb in FacetList(d, sku, facetKey)
    ensures exists i :: 0 <= i < |vs| && vs[i] == Visit(vs[i].product, facetKey, crumb) && vs[i].product.sku == sku
  {
    UniqMembers(CrumbsOf(vs, sku, facetKey));
  }

  /** The dataset before the last visit, and that visit merged in. */
  function LastMerged(d: Dataset, vs: seq<Visit>): Dataset
    requires vs != []
  {
    var v := vs[|vs| - 1];
    MergeProduct(d, v.product, v.facetKey, v.crumb)
  }

  lemma RecordsKeys(d: Dataset, vs: seq<Visit>)
    requires vs != [] && Records(d, vs[..|vs| - 1])
    ensures var sku := vs[|vs| - 1].product.sku;
            sku in d.entries <==> sku in Skus(vs[..|vs| - 1])
    ensures LastMerged(d, vs).keys == Uniq(Skus(vs))
  {
    var front, v := vs[..|vs| - 1], vs[|vs| - 1];
    UniqMembers(Skus(front));
    UniqSnoc(Skus(front), v.product.sku);
  }

  lemma RecordsProducts(d: Dataset, vs: seq<Visit>)
    requires vs != [] && FirstProducts(d, vs[..|vs| - 1])
    requires var sku := vs[|vs| - 1].product.sku;
             sku in d.entries <==> sku in Skus(vs[..|vs| - 1])
    ensures FirstProducts(LastMerged(d, vs), vs)
  {
    forall sku | sku in LastMerged(d, vs).entries
      ensures sku in Skus(vs) && LastMerged(d, vs).entries[sku].product == vs[IndexOf(Skus(vs), sku)].product
    {
      var front, v := vs[..|vs| - 1], vs[|vs| - 1];
      if sku in d.entries {
        ProductOfOldSku(d, vs, sku, d.entries[sku].product);
      } else {
        ProductOfNewSku(Skus(front), sku);
      }
    }
  }

  /** A SKU already stored keeps its record, which is that of its first visit. */
  lemma ProductOfOldSku(d: Dataset, vs: seq<Visit>, sku: string, p: Product)
    requires vs != [] && sku in d.entries && d.entries[sku].product == p
    requires sku in Skus(vs[..|vs| - 1]) && p == vs[IndexOf(Skus(vs[..|vs| - 1]), sku)].product
    ensures sku in LastMerged(d, vs).entries && LastMerged(d, vs).entries[sku].product == p
    ensures sku in Skus(vs) && p == vs[IndexOf(Skus(vs), sku)].product
  {
    var front, v := vs[..|vs| - 1], vs[|vs| - 1];
    assert Skus(vs) == Skus(front) + [v.product.sku];
    IndexOfAppend(Skus(front), [v.product.sku], sku);
  }

  /** A key met for the first time sits at the end. */
  lemma ProductOfNewSku(skus: seq<string>, sku: string)
    requires sku !in skus
    ensures IndexOf(skus + [sku], sku) == |skus|
  {
    assert (skus + [sku])[|skus|] == sku;
  }

  /** One merge changes only the facet list it targets, to `uniq([...prev, crumb])`. */
  lemma FacetAfterMerge(d: Dataset, p: Product, facetKey: string, crumb: string, sku: string, key: string)
    ensures FacetList(MergeProduct(d, p, facetKey, crumb), sku, key)
         == if p.sku == sku && facetKey == key then Uniq(FacetList(d, sku, key) + [crumb]) else FacetList(d, sku, key)
  {
  }

  /** `uniq` applied again after appending one element changes nothing. */
  lemma UniqUniqSnoc(s: seq<string>, x: string)
    ensures Uniq(Uniq(s) + [x]) == Uniq(s + [x])
  {
    UniqMembers(s);
    UniqSnoc(s, x);
    UniqAppendOne(Uniq(s), x);
  }

  lemma RecordsFacet(d: Dataset, vs: seq<Visit>, sku: string, facetKey: string)
    requires vs != []
    requires FacetList(d, sku, facetKey) == Uniq(CrumbsOf(vs[..|vs| - 1], sku, facetKey))
    ensures FacetList(LastMerged(d, vs), sku, facetKey) == Uniq(CrumbsOf(vs, sku, facetKey))
  {
    var front, v := vs[..|vs| - 1], vs[|vs| - 1];
    var before := CrumbsOf(front, sku, facetKey);
    FacetAfterMerge(d, v.product, v.facetKey, v.crumb, sku, facetKey);
    if v.product.sku == sku && v.facetKey == facetKey {
      assert CrumbsOf(vs, sku, facetKey) == before + [v.crumb];
      UniqUniqSnoc(before, v.crumb);
    } else {
      assert CrumbsOf(vs, sku, facetKey) == before + [];
      assert before + [] == before;
    }
  }

  /** Applying one more visit keeps the description. */
  lemma RecordsStep(d: Dataset, vs: seq<Visit>)
    requires vs != [] && Records(d, vs[..|vs| - 1])
    ensures Records(LastMerged(d, vs), vs)
  {
    var v := vs[|vs| - 1];
    MergeProductValid(d, v.product, v.facetKey, v.crumb);
    RecordsKeys(d, vs);
    RecordsProducts(d, vs);
    forall sku, facetKey
      ensures FacetList(LastMerged(d, vs), sku, facetKey) == Uniq(CrumbsOf(vs, sku, facetKey))
    {
      RecordsFacet(d, vs, sku, facetKey);
    }
  }

  lemma RecordsEmpty()
    ensures Records(Empty, [])
  {
    var none: seq<string> := [];
    assert Skus([]) == none && Uniq(none) == none;
    forall sku, facetKey ensures FacetList(Empty, sku, facetKey) == Uniq(CrumbsOf([], sku, facetKey)) {
      assert CrumbsOf([], sku, facetKey) == none;
    }
  }

  /** Merging a sequence of visits into `{}` yields exactly what they record. */
  lemma {:induction false} MergeVisitsRecords(vs: seq<Visit>)
    ensures Records(MergeVisits(Empty, vs), vs)
  {
    if vs == [] {
      RecordsEmpty();
    } else {
      var d0 := MergeVisits(Empty, vs[..|vs| - 1]);
      MergeVisitsRecords(vs[..|vs| - 1]);
      RecordsStep(d0, vs);
      assert MergeVisits(Empty, vs) == LastMerged(d0, vs);
    }
  }

  // ---------------------------------------------------------------------------
  // The finished dataset

  /** For a non-empty product list, the dataset is built exactly when the walk
      completes, and then it holds exactly what the walk's visits record: the
      SKUs in order of first visit, the record of each SKU's first visit, and
      under each facet key the distinct breadcrumbs of its visits in walk order. */
  lemma DatasetOfContents(data: RawData, rank: map<string, nat>, env: Env, catalog: RawCatalog,
                          locale: string, raw: seq<RawProduct>)
    requires Ranked(data.taxons, rank) && |raw| > 0
    ensures DatasetOf(data, rank, env, catalog, locale, raw).Ok? <==>
            WalkTaxonomies(data, rank, env, locale, raw, catalog.taxonomies).Ok?
    ensures DatasetOf(data, rank, env, catalog, locale, raw).Ok? ==>
              Records(DatasetOf(data, rank, env, catalog, locale, raw).value,
                      WalkTaxonomies(data, rank, env, locale, raw, catalog.taxonomies).value)
  {
    VisitTaxonomiesIsWalk(data, rank, env, locale, raw, catalog.taxonomies, Empty);
    var w := WalkTaxonomies(data, rank, env, locale, raw, catalog.taxonomies);
    if w.Ok? {
      MergeVisitsRecords(w.value);
    }
  }

  // ---------------------------------------------------------------------------
  // Which visits the walk makes

  /** A taxon's walk starts with its own variants under its own breadcrumb, and
      contains every visit of each child's walk. */
  lemma WalkTaxonCovers(data: RawData, rank: map<string, nat>, env: Env, locale: string, raw: seq<RawProduct>,
                        facetKey: string, ancestors: seq<RawTaxon>, key: string)
    requires Ranked(data.taxons, rank)
    requires WalkTaxon(data, rank, env, locale, raw, facetKey, ancestors, key).Ok?
    ensures HasTaxon(data.taxons, key)
    ensures var t := GetTaxon(data.taxons, key).value;
            && TaxonVariants(data.taxons, rank, env, locale, raw, t).Ok?
            && Stamp(TaxonVariants(data.taxons, rank, env, locale, raw, t).value, facetKey, Breadcrumb(env, locale, ancestors, t))
               <= WalkTaxon(data, rank, env, locale, raw, facetKey, ancestors, key).value
    ensures var t := GetTaxon(data.taxons, key).value;
            forall c :: c in ChildIds(t) ==>
              && WalkTaxon(data, rank, env, locale, raw, facetKey, ancestors + [t], c).Ok?
              && multiset(WalkTaxon(data, rank, env, locale, raw, facetKey, ancestors + [t], c).value)
                 <= multiset(WalkTaxon(data, rank, env, locale, raw, facetKey, ancestors, key).value)
  {
    var t := GetTaxon(data.taxons, key).value;
    ChildIdsBelow(data.taxons, rank, t);
    WalkChildrenCovers(data, rank, env, locale, raw, facetKey, ancestors + [t], Height(rank, key), ChildIds(t));
  }

  /** The walk of a child list contains every visit of each child's walk. */
  lemma {:induction false} WalkChildrenCovers(data: RawData, rank: map<string, nat>, env: Env, locale: string, raw: seq<RawProduct>,
                                              facetKey: string, ancestors: seq<RawTaxon>, bound: nat, ids: seq<string>)
    requires Ranked(data.taxons, rank)
    requires forall k :: k in ids ==> Height(rank, k) < bound
    requires WalkChildren(data, rank, env, locale, raw, facetKey, ancestors, bound, ids).Ok?
    ensures forall c :: c in ids ==>
              && WalkTaxon(data, rank, env, locale, raw, facetKey, ancestors, c).Ok?
              && multiset(WalkTaxon(data, rank, env, locale, raw, facetKey, ancestors, c).value)
                 <= multiset(WalkChildren(data, rank, env, locale, raw, facetKey, ancestors, bound, ids).value)
    decreases |ids|
  {
    if ids != [] {
      assert forall k :: k in ids[1..] ==> k in ids;
      WalkChildrenCovers(data, rank, env, locale, raw, facetKey, ancestors, bound, ids[1..]);
      var first := WalkTaxon(data, rank, env, locale, raw, facetKey, ancestors, ids[0]).value;
      var rest := WalkChildren(data, rank, env, locale, raw, facetKey, ancestors, bound, ids[1..]).value;
      assert WalkChildren(data, rank, env, locale, raw, facetKey, ancestors, bound, ids).value == first + rest;
      assert multiset(first + rest) == multiset(first) + multiset(rest);
      forall c | c in ids && c != ids[0] ensures c in ids[1..] {
      }
    }
  }

  /** The catalog's walk contains the walk of every root taxon of every taxonomy
      it lists, under that taxonomy's facet key. */
  lemma {:induction false} WalkTaxonomiesCovers(data: RawData, rank: map<string, nat>, env: Env, locale: string,
                                                raw: seq<RawProduct>, keys: seq<string>)
    requires Ranked(data.taxons, rank)
    requires WalkTaxonomies(data, rank, env, locale, raw, keys).Ok?
    ensures forall k :: k in keys ==> HasTaxonomy(data.taxonomies, k)
    ensures forall k, root :: k in keys && root in GetTaxonomy(data.taxonomies, k).value.taxons ==>
              && WalkTaxon(data, rank, env, locale, raw, GetTaxonomy(data.taxonomies, k).value.facetKey, [], root).Ok?
              && multiset(WalkTaxon(data, rank, env, locale, raw, GetTaxonomy(data.taxonomies, k).value.facetKey, [], root).value)
                 <= multiset(WalkTaxonomies(data, rank, env, locale, raw, keys).value)
  {
    if keys != [] {
      var taxonomy := GetTaxonomy(data.taxonomies, keys[0]).value;
      WalkChildrenCovers(data, rank, env, locale, raw, taxonomy.facetKey, [], Bound(rank, taxonomy.taxons), taxonomy.taxons);
      WalkTaxonomiesCovers(data, rank, env, locale, raw, keys[1..]);
      assert forall k :: k in keys ==> k == keys[0] || k in keys[1..];
    }
  }
}
