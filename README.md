# Catalog, sorting and locale helpers of the storefront, in Dafny

This project models the data core of a storefront built on static JSON data:

- **Catalog resolution** (`data/catalogs.ts`). Raw catalogs, taxonomies and taxons refer to one another by string id. `getCatalog` picks a catalog by a name derived from the locale. It builds a product dataset: every product is tagged, under the taxonomy's facet key, with the breadcrumb of every taxon whose subtree references it: a taxon tags all the products of its descendants, not only its own. It then resolves the catalog into a tree of localized taxons carrying their products. The queries flatten the products of a taxon or catalog, de-duplicated by SKU, and find a taxon by slug together with its path from the root.
- **Rule-based sorting** (`src/utils/sort.ts`). Facet values are grouped by the first rule whose pattern matches them. Each group is sorted by its rule's sort, or by the default string order. The groups are concatenated in rule order.
- **Country helpers** (`src/utils/countries.ts`): the shoppable test and grouping by region.
- **The URL test on the data folder** (`isUrlAbsolute` in `src/utils/data.ts`).
- **`combine`** (`src/i18n/utils.ts`), whose implementation is not part of this model. It is defined by its tests in `src/i18n/utils.test.ts`.

How the modules divide the work:

- `Results`: the `Result` and `Option` types, and one `Error` constructor per `throw` in the source.
- `Sequences`: the array and lodash operations the code relies on (`find`, `filter`, `flat`, `uniq`, `uniqBy`, `indexOf`), with their laws.
- `CatalogData`: the raw records, the id lookups and `flattenReferences`.
- `ProductDataset`: `buildProductDataset`, written as imperative code and proved against a recursive specification.
- `DatasetContents`: the walk of `buildProductDataset` as a sequence of visits, and what the finished dataset holds in terms of those visits.
- `CatalogResolver`: the `resolve*` functions and `getCatalog`.
- `CatalogQueries`: product flattening and the slug search.
- `RuleSort`, `Countries`, `UrlData` and `I18nUtils`: the remaining files, one module each.

Every `throw` becomes an `Err` result. The recursive catalog functions take a ghost ranking of taxon ids (`CatalogData.Ranked`). The ranking gives every taxon in the table a rank above the rank of each ranked child id. It therefore rules out every cycle in the taxon table, including cycles that no walk from the catalog reaches. A child id that is missing from the table fails its lookup before any recursion, whether or not it has a rank.

Two places where the model chooses between source files:

- `getCatalog` takes a locale and optional raw products (`data/catalogs.ts:85-96`). `src/pages/[locale]/search/[...slug].page.tsx:104` calls it with a catalog name, a locale code and a flag instead. The model follows the definition.
- `findTaxonBySlug` calls `deepFind` from `#utils/collection`, which is not part of this model. `CatalogQueries.DeepFind` follows the pre-order search written out in `src/pages/[locale]/search/[...slug].page.tsx:107-125`. That search tests a taxon before its children, and returns the matched taxon and the path that leads to it. The source writes that path into a shared array that can keep stale deeper entries after backtracking; the model returns only the path itself (see "## Left out").

## Model

| member | source | states |
|---|---|---|
| CatalogData.CatalogName | data/catalogs.ts:86 | a shoppable locale looks up its country's catalog, any other locale its language's catalog |
| CatalogData.FindCatalog | data/catalogs.ts:87 | finds a catalog exactly when one has the name, and returns the first such catalog |
| CatalogData.GetTaxonomy | data/catalogs.ts:140-148 | succeeds exactly when some taxonomy has the id, with the first one; otherwise fails with that id |
| CatalogData.GetTaxon | data/catalogs.ts:150-158 | succeeds exactly when some taxon has the id, with the first one; otherwise fails with that id |
| CatalogData.GetTaxons | data/catalogs.ts:100 | `ids.map(getTaxon)`: succeeds exactly when every id exists, the results follow the ids in order, and the error names the first missing id |
| CatalogData.GetTaxonomies | data/catalogs.ts:165-166 | `ids.map(getTaxonomy)`: the same guarantees for taxonomy ids |
| CatalogData.FlattenReferences | data/catalogs.ts:98-102 | the taxon's own references come first; a leaf yields exactly its own references; the only failure is a missing taxon id |
| CatalogData.FlattenEach | data/catalogs.ts:100 | the `flatMap` over the children fails only with a missing taxon id |
| CatalogData.FlattenReferencesIsConcat | data/catalogs.ts:98-102 | a flattening is exactly the taxon's own references followed by the concatenated flattenings of its children, in child-id order |
| CatalogData.FlattenEachIsConcat | data/catalogs.ts:100 | `flatMap` is `map` then `flat`: every subtree flattens, and the results are joined in order |
| CatalogData.FlattenReferencesOk | data/catalogs.ts:98-102 | flattening fails exactly when a taxon reachable from this one names a missing child id |
| CatalogData.FlattenReferencesChild | data/catalogs.ts:99-100 | every child's flattened references are contained, duplicates included, in the parent's flattening, alongside the parent's own references |
| CatalogData.FlattenReferencesExample | data/catalogs.ts:98-102 | a taxon with references a, b and one child referencing c flattens to a, b, c |
| ProductDataset.Breadcrumb | data/catalogs.ts:129 | a root taxon's crumb is its translated label; every crumb ends with the taxon's own label |
| ProductDataset.BreadcrumbOfChild | data/catalogs.ts:129-134 | a child's crumb extends its parent's crumb with " > " and the child's label |
| ProductDataset.Values | data/catalogs.ts:167 | `Object.values(productDataset)`: only stored entries; for a well-formed dataset, exactly one entry per key, in key order |
| ProductDataset.MergeProduct | data/catalogs.ts:123-131 | adds the SKU when new and otherwise keeps the stored product; other entries and the product's other facet keys are unchanged |
| ProductDataset.MergeProductValid | data/catalogs.ts:123-131 | one merge keeps the dataset well-formed (keys distinct and in insertion order, facet lists without duplicates) and only grows it; the crumb is appended to the facet list exactly when it is not already there |
| ProductDataset.MergeAllValid | data/catalogs.ts:122-132 | after merging all variants of a taxon, each variant's facet list contains the taxon's crumb |
| ProductDataset.TaxonVariants | data/catalogs.ts:120-122 | the variants of a taxon exist exactly when its references flatten |
| ProductDataset.VisitTaxon | data/catalogs.ts:117-135 | visiting a taxon fails only with a missing taxon id |
| ProductDataset.VisitChildren | data/catalogs.ts:134 | visiting siblings fails only with a missing taxon id |
| ProductDataset.VisitTaxonomies | data/catalogs.ts:110-114 | visiting the taxonomies fails only with a missing taxonomy or taxon id |
| ProductDataset.DatasetOf | data/catalogs.ts:104-138 | no raw products give the empty dataset; a failure needs raw products and is a missing taxonomy or taxon id |
| ProductDataset.BuildProductDataset | data/catalogs.ts:104-138 | the imperative walk returns the dataset of its specification; no raw products give an empty dataset |
| ProductDataset.MergeVariants | data/catalogs.ts:122-132 | the loop over a taxon's variants ends with every variant merged in order, the fold `MergeAll` whose properties `MergeAllValid` states |
| ProductDataset.BuildTaxon | data/catalogs.ts:117-135 | the recursive per-taxon step computes what the specification's taxon visit does, from any starting dataset |
| ProductDataset.VisitTaxonSound | data/catalogs.ts:117-135 | a taxon visit succeeds exactly when its subtree is closed; it then keeps the dataset well-formed, only grows it, and tags every variant with the crumb |
| ProductDataset.VisitTaxonomiesSound | data/catalogs.ts:110-114 | visiting the taxonomies succeeds exactly when every key names a taxonomy whose subtrees are closed; it keeps the dataset well-formed and only grows it |
| ProductDataset.DatasetOfSound | data/catalogs.ts:104-138 | building succeeds exactly when there are no raw products or every reachable id exists; the result is well-formed |
| DatasetContents.MergeAllIsVisits | data/catalogs.ts:122-132 | merging a taxon's variants is applying one visit per variant, in order, all with the taxon's crumb |
| DatasetContents.VisitTaxonIsWalk | data/catalogs.ts:117-135 | visiting a taxon fails with the walk's error, or applies the walk's visits in order: the taxon's variants, then each child's subtree |
| DatasetContents.VisitChildrenIsWalk | data/catalogs.ts:134 | visiting siblings applies their walks one after the other |
| DatasetContents.VisitTaxonomiesIsWalk | data/catalogs.ts:110-114 | visiting the taxonomies applies, taxonomy by taxonomy, the walks of their root taxons |
| DatasetContents.RecordsStep | data/catalogs.ts:123-131 | one more visit keeps the dataset equal to what the visits record |
| DatasetContents.MergeVisitsRecords | data/catalogs.ts:123-131 | merging visits into `{}` stores one key per SKU in order of first visit, the product of each SKU's first visit, and for every SKU and facet key the distinct crumbs of its visits in visit order |
| DatasetContents.DatasetOfContents | data/catalogs.ts:104-138 | with raw products, building succeeds exactly when the walk does; the dataset then holds exactly the walk's SKUs, the first visit's product for each, and the de-duplicated crumbs of each SKU per facet key |
| DatasetContents.RecordsHoldVisits | data/catalogs.ts:123-131 | every visit's SKU is a key of the dataset and its breadcrumb is listed under its facet key |
| DatasetContents.RecordsOnlyVisits | data/catalogs.ts:123-131 | every breadcrumb listed under a SKU and facet key comes from a visit of that SKU under that key |
| DatasetContents.WalkTaxonCovers | data/catalogs.ts:117-135 | a taxon's walk starts with one visit per variant of the taxon, stamped with its crumb, and contains the walk of every child |
| DatasetContents.WalkChildrenCovers | data/catalogs.ts:134 | the siblings' walk contains the walk of each sibling |
| DatasetContents.WalkTaxonomiesCovers | data/catalogs.ts:110-114 | the whole walk contains the walk of every root taxon of every taxonomy, under that taxonomy's facet key |
| CatalogResolver.ImageOf | data/catalogs.ts:191 | the image is kept only when present and non-empty (a truthy string) |
| CatalogResolver.ResolveTaxon | data/catalogs.ts:183-198 | copies id, name and slug; translates label and description; children follow the child ids in order, with none when the field is absent; products are empty for an empty product list and otherwise one per reference; the only failure is a missing taxon id |
| CatalogResolver.ResolveTaxonChildren | data/catalogs.ts:192-193 | the `i`-th child of a resolved taxon is the resolution of the taxon named by the `i`-th child id |
| CatalogResolver.ResolveEach | data/catalogs.ts:192-193 | the resolved children follow the given taxons, one for one; the only failure is a missing taxon id |
| CatalogResolver.ResolveEachElems | data/catalogs.ts:192-193 | element `i` of `map(resolveTaxon)` is the resolution of the `i`-th taxon |
| CatalogResolver.ResolveTaxonOk | data/catalogs.ts:183-198 | resolution fails exactly when a reachable child id is missing |
| CatalogResolver.ResolveTaxonomy | data/catalogs.ts:171-181 | copies id, facet key and name; the resolved taxons follow the taxonomy's ids; the only failure is a missing taxon id |
| CatalogResolver.ResolveTaxonomyTaxons | data/catalogs.ts:177-179 | the `i`-th taxon of a resolved taxonomy is the resolution of the taxon its `i`-th id names |
| CatalogResolver.ResolveTaxonomyOk | data/catalogs.ts:171-181 | fails exactly when a root id or a reachable child id is missing |
| CatalogResolver.ResolveCatalog | data/catalogs.ts:160-169 | copies id and name; the resolved taxonomies follow the catalog's ids; a failure is a missing taxonomy or taxon id |
| CatalogResolver.ResolveTaxonomies | data/catalogs.ts:165-167 | the resolved taxonomies follow the given ones, one for one; the only failure is a missing taxon id |
| CatalogResolver.ResolveTaxonomiesElems | data/catalogs.ts:165-167 | element `i` is the resolution of the `i`-th taxonomy |
| CatalogResolver.ResolveCatalogTaxonomies | data/catalogs.ts:165-167 | the `i`-th taxonomy of a resolved catalog is the resolution of the taxonomy its `i`-th id names, against `Object.values` of the dataset |
| CatalogResolver.ResolveCatalogOk | data/catalogs.ts:160-169 | fails exactly when a taxonomy id or a reachable taxon id is missing |
| CatalogResolver.GetCatalog | data/catalogs.ts:85-96 | fails with the catalog name when no catalog matches, and otherwise only with a missing taxonomy or taxon id; succeeds exactly when the catalog exists and all its references resolve; the result is the resolved catalog over the built dataset |
| CatalogQueries.FlattenProductsFromTaxon | data/catalogs.ts:200-205 | the result holds no two products with the same SKU |
| CatalogQueries.FlattenProductsFromTaxonIsUniq | data/catalogs.ts:200-205 | the nested de-duplication equals one `uniqBy` over the subtree's products in pre-order, so the first occurrence wins; it keeps every SKU of the subtree |
| CatalogQueries.FlattenProductsFromCatalog | data/catalogs.ts:207-212 | the result holds no two products with the same SKU |
| CatalogQueries.FlattenProductsFromCatalogIsUniq | data/catalogs.ts:207-212 | equals one `uniqBy` over all products of all taxonomies in pre-order; it keeps every SKU of the catalog |
| CatalogQueries.DeepFind | data/catalogs.ts:220 | a found taxon has the slug; its path extends the given prefix and ends with that taxon |
| CatalogQueries.DeepFindIsFirst | data/catalogs.ts:220 | finds nothing exactly when no taxon in the trees has the slug; otherwise finds the first one in pre-order |
| CatalogQueries.FindTaxonBySlug | data/catalogs.ts:214-228 | a result has the slug and a path ending with it; failure is the not-found error |
| CatalogQueries.FindTaxonBySlugIsFirst | data/catalogs.ts:214-228 | fails exactly when no taxon of any taxonomy has the slug; otherwise returns the first in pre-order across taxonomies in order |
| CatalogQueries.SearchTaxonomies | data/catalogs.ts:215-221 | once a taxonomy has produced a result, later taxonomies are not searched; starting from nothing, the result is empty exactly when no taxonomy's search finds the slug |
| RuleSort.ToString | src/utils/sort.ts:41 | `value.toString()` of a number is its decimal digits, with a minus sign exactly when it is negative, and reads back as that number |
| RuleSort.MatchOf | src/utils/sort.ts:41 | a value gets a bucket exactly when some rule matches its string form; the bucket is the pattern of the first matching rule |
| RuleSort.NewPatternMap | src/utils/sort.ts:28-38 | the map's keys are the distinct patterns in order of first occurrence; each starts with an empty bucket and the sort of the last rule carrying its pattern |
| RuleSort.CollectValues | src/utils/sort.ts:40-53 | each bucket ends up holding, in input order, exactly the values whose first matching rule has that pattern |
| RuleSort.Sort | src/utils/sort.ts:26-62 | the method returns the specification: the arranged buckets concatenated in key order |
| RuleSort.SortIsPermutation | src/utils/sort.ts:40-61 | when custom sorts permute their input, the result is a permutation of the values some rule matches; unmatched values are dropped |
| RuleSort.SortIsGrouped | src/utils/sort.ts:55-59 | the result is grouped by bucket, buckets in key order |
| RuleSort.BucketOrderFollowsFirstRule | src/utils/sort.ts:28-38 | two buckets come in the order of the first rules carrying their patterns |
| RuleSort.SortOfIsLastRule | src/utils/sort.ts:28-38 | a bucket uses the sort of the last rule with its pattern |
| RuleSort.DefaultSort | src/utils/sort.ts:57 | the default sort keeps every value, as often as it occurs |
| RuleSort.DefaultSortSorted | src/utils/sort.ts:57 | `values.sort()` orders by string form, code unit by code unit, and keeps every value |
| RuleSort.DefaultArrangeIsSorted | src/utils/sort.ts:57 | a bucket without a custom sort comes out ordered by string form and with the same values |
| RuleSort.SortEmpty | src/utils/sort.ts:26-62 | sorting no values gives no values |
| RuleSort.StrLeqTotal | src/utils/sort.ts:57 | any two strings are comparable in the default order |
| RuleSort.StrLeqTransitive | src/utils/sort.ts:57 | the default order is transitive |
| Countries.CountryIsShoppable | src/utils/countries.ts:13-15 | shoppable exactly when the market is present and is a number |
| Countries.ShoppableNeedsNumericMarket | src/utils/countries.ts:13-15 | any numeric market makes a country shoppable; no absent, string, boolean or null market does |
| Countries.GroupByRegion | src/utils/countries.ts:17-27 | the group keys are exactly the regions that occur in the input; no input gives no groups |
| Countries.GroupIsRegion | src/utils/countries.ts:17-27 | each group is exactly the countries of that region, in input order |
| Countries.CountryInOwnGroup | src/utils/countries.ts:20-24 | every country appears in its own region's group |
| Countries.GroupSizesSum | src/utils/countries.ts:17-27 | the group sizes add up to the input length: nothing is dropped or duplicated |
| UrlData.IndexOf | src/utils/data.ts:2 | `indexOf`: -1 exactly when absent, otherwise the first occurrence |
| UrlData.IsUrlAbsolute | src/utils/data.ts:1-3 | absolute exactly when the string starts with "//", or contains "://" and does not start with it |
| UrlData.DefaultFolderIsLocal | src/utils/data.ts:1-5 | the default folder "json" is not absolute |
| UrlData.EmptyIsLocal | src/utils/data.ts:2 | the empty string is not absolute |
| UrlData.BareSeparatorIsLocal | src/utils/data.ts:2 | "://x" is not absolute |
| UrlData.HttpsIsAbsolute | src/utils/data.ts:2 | "https://x" is absolute |
| UrlData.ProtocolRelativeIsAbsolute | src/utils/data.ts:2 | "//cdn/json" is absolute |
| I18nUtils.Combine | src/i18n/utils.test.ts:5-17 | fails exactly when either array is empty; otherwise yields one result per pair |
| I18nUtils.CombineAt | src/i18n/utils.test.ts:11-17 | position `i * |b| + j` holds `f(a[i], b[j])`: first array major |
| I18nUtils.CombineRejectsEmpty | src/i18n/utils.test.ts:5-9 | the three calls with an empty array fail |
| I18nUtils.CombineLocales | src/i18n/utils.test.ts:11-13 | `['it','en']` and `['1','2']` with a dash combine to it-1, it-2, en-1, en-2 |
| I18nUtils.CombineDifferences | src/i18n/utils.test.ts:15-16 | `[10,9]` and `[1,2]` under subtraction combine to 9, 8, 8, 7 |
| Sequences.UniqBy | data/catalogs.ts:201-204 | lodash `uniqBy`: no two kept elements share a key, every key of the input is kept, and nothing new appears (that the kept element is the first of its key, in input order, is `Sequences.UniqByKeepsFirst`) |
| Sequences.UniqByKeepsFirst | data/catalogs.ts:201-204 | `uniqBy` keeps a subsequence of its input, and each kept element is the first one with its key |
| Sequences.UniqOrder | data/catalogs.ts:126-130 | `uniq` keeps elements in the order of their first occurrences |
| Sequences.MapResult | data/catalogs.ts:166 | a throwing `map`: succeeds exactly when every call does, and the error is the first failure |

## Left out

- Loading and validating the JSON files (zod schemas, `fetchData`, dynamic `import`) is left out. The raw collections are parameters (`CatalogData.RawData`).
- `translateField`, `getProductWithVariants` and `flattenProductVariants` are defined in files that are not part of this model. They are total functions in `CatalogData.Env`, so their own failures are not modelled.
- The `_unserializable` symbol markers carry no data and are omitted.
- `console.error` for a value no sorting rule matches is omitted; the value is dropped as in the source.
- `ProductDataset.MergeProduct` stores facet lists beside the product record rather than as properties of the same object. The model therefore does not capture a facet key that collides with a product property name.
- A JavaScript object lists integer-like keys before the others. `ProductDataset.Values` keeps plain insertion order and does not model that reordering for numeric SKUs.
- `CatalogQueries.DeepFind` follows the search written out in `src/pages/[locale]/search/[...slug].page.tsx:107-125`, not `deepFind` from `#utils/collection`, which `data/catalogs.ts:220` calls and which is not part of this model.
- `CatalogQueries.DeepFind` returns the path as a fresh sequence. The source writes into one shared `memo` array by depth, so after backtracking entries deeper than the match can remain. That stale tail is not modelled.
- `CatalogData.Ranked`: the recursive catalog functions require a ranking of taxon ids, which excludes every cycle in the taxon table. A table with a cycle that no walk reaches, which the source handles, therefore lies outside the model. So does a reached cycle, on which the source recurses until the JavaScript stack overflows with a `RangeError`.
- `RuleSort.Value` models numbers as unbounded integers. The decimal form of fractional numbers, `NaN` and `Infinity` is not modelled.
- `RuleSort.ToString` writes every digit. JavaScript writes integers of magnitude 1e21 or more in exponent form (`1e+21`), and stores integers beyond 2^53 inexactly, so the two agree only below those bounds.
- `RuleSort.Rule` models `pattern.test` as a pure function, so the `lastIndex` state of a global RegExp is not modelled.
- `RuleSort.SortIsPermutation`, `RuleSort.SortIsGrouped` and `RuleSort.SortEmpty` assume that custom sorts return a permutation of their input. The source does not check this.
- The stability of the default sort follows from `RuleSort.Insert`, which places a value after equal ones. It is not stated as a separate lemma.
- The default sort compares Dafny `char`s. This matches UTF-16 code-unit order only for characters of the basic multilingual plane.
- `Countries.GroupByRegion` returns a map, so the key order of the returned object is not modelled.
- SKUs, region names and facet keys are plain strings in the model. JavaScript objects inherit properties from `Object.prototype`, which the source does not guard against. For an SKU such as `constructor` or `toString`, `productDataset[sku] || product` picks up the inherited function instead of the product. A region with such a name makes `groupByRegion` spread a function, which throws. The model treats these names like any other.
- React components, pages, the facet configuration and the `Logo`, `Footer` and app shells are presentation code outside the modelled core.
