/** The raw reference data of data/catalogs.ts (catalogs, taxonomies and taxons that
    refer to each other by string id), the collaborators the module calls but does
    not define, the id lookups and the reference flattener. */
module CatalogData {
  import opened Results
  import opened Sequences

  /** A localized field: locale code to text. */
  type LocalizedText = map<string, string>

  datatype RawCatalog = RawCatalog(id: string, name: string, taxonomies: seq<string>)

  datatype RawTaxonomy = RawTaxonomy(id: string, name: string, facetKey: string, taxons: seq<string>)

  /** `taxons` is optional in the schema: leaf taxons omit it. */
  datatype RawTaxon = RawTaxon(
    id: string,
    name: string,
    labelText: LocalizedText,  // `label` in the source; a reserved word in Dafny
    description: LocalizedText,
    slug: string,
    image: Option<string>,
    references: seq<string>,
    taxons: Option<seq<string>>)

  /** The three parsed collections the module loads once. */
  datatype RawData = RawData(catalogs: seq<RawCatalog>, taxonomies: seq<RawTaxonomy>, taxons: seq<RawTaxon>)

  /** A raw product record; the catalog code passes it along without looking inside. */
  datatype RawProduct = RawProduct(code: string, fields: map<string, string>)

  /** A localized product variant; the catalog code only ever reads its `sku`. */
  datatype Product = Product(sku: string, code: string, name: string)

  /** One value of the product dataset: the product record and the facet-key
      properties added to it (facet key to breadcrumb list). */
  datatype Entry = Entry(product: Product, facets: map<string, seq<string>>)

  /** The parts of a locale the catalog code reads. */
  datatype Locale = Locale(code: string, isShoppable: bool, countryCatalog: string, languageCatalog: string)

  /** The helpers data/catalogs.ts imports but does not define, as total functions:
      `translateField`, `getProductWithVariants` over raw products,
      `flattenProductVariants`, and `getProductWithVariants` as `resolveTaxon`
      calls it, over the values of the product dataset. */
  datatype Env = Env(
    translate: (LocalizedText, string) -> string,
    productWithVariants: (string, string, seq<RawProduct>) -> Product,
    flattenVariants: seq<Product> -> seq<Product>,
    datasetProduct: (string, string, seq<Entry>) -> Product)

  /** The catalog name `getCatalog` looks for. */
  function CatalogName(locale: Locale): (name: string)
    ensures locale.isShoppable ==> name == locale.countryCatalog
    ensures !locale.isShoppable ==> name == locale.languageCatalog
  {
    if locale.isShoppable then locale.countryCatalog else locale.languageCatalog
  }

  /** `taxon.taxons || []`: an absent child list counts as empty. */
  function ChildIds(t: RawTaxon): seq<string>
  {
    if t.taxons.Some? then t.taxons.value else []
  }

  // ---------------------------------------------------------------------------
  // Lookups: the first record with the wanted key, else a failure

  predicate HasCatalog(catalogs: seq<RawCatalog>, name: string)
  {
    exists i :: 0 <= i < |catalogs| && catalogs[i].name == name
  }

  predicate HasTaxonomy(taxonomies: seq<RawTaxonomy>, key: string)
  {
    exists i :: 0 <= i < |taxonomies| && taxonomies[i].id == key
  }

  predicate HasTaxon(taxons: seq<RawTaxon>, key: string)
  {
    exists i :: 0 <= i < |taxons| && taxons[i].id == key
  }

  /** `rawDataCatalogs.find(catalog => catalog.name === name)`. */
  function FindCatalog(catalogs: seq<RawCatalog>, name: string): (r: Option<RawCatalog>)
    ensures r.Some? <==> HasCatalog(catalogs, name)
    ensures r.Some? ==> r.value.name == name
    ensures r.Some? ==> exists i :: 0 <= i < |catalogs| && catalogs[i] == r.value &&
                                    forall j :: 0 <= j < i ==> catalogs[j].name != name
  {
    match FindIndex(catalogs, (c: RawCatalog) => c.name == name)
    case Some(i) => Some(catalogs[i])
    case None => None
  }

  /** `getTaxonomy`: the first taxonomy with this id; throws when there is none. */
  function GetTaxonomy(taxonomies: seq<RawTaxonomy>, key: string): (r: Result<RawTaxonomy>)
    ensures r.Ok? <==> HasTaxonomy(taxonomies, key)
    ensures r.Ok? ==> r.value.id == key && r.value in taxonomies
    ensures r.Ok? ==> exists i :: 0 <= i < |taxonomies| && taxonomies[i] == r.value &&
                                  forall j :: 0 <= j < i ==> taxonomies[j].id != key
    ensures r.Err? ==> r.error == TaxonomyNotFound(key)
  {
    match FindIndex(taxonomies, (t: RawTaxonomy) => t.id == key)
    case Some(i) => Ok(taxonomies[i])
    case None => Err(TaxonomyNotFound(key))
  }

  /** `getTaxon`: the first taxon with this id; throws when there is none. */
  function GetTaxon(taxons: seq<RawTaxon>, key: string): (r: Result<RawTaxon>)
    ensures r.Ok? <==> HasTaxon(taxons, key)
    ensures r.Ok? ==> r.value.id == key && r.value in taxons
    ensures r.Ok? ==> exists i :: 0 <= i < |taxons| && taxons[i] == r.value &&
                                  forall j :: 0 <= j < i ==> taxons[j].id != key
    ensures r.Err? ==> r.error == TaxonNotFound(key)
  {
    match FindIndex(taxons, (t: RawTaxon) => t.id == key)
    case Some(i) => Ok(taxons[i])
    case None => Err(TaxonNotFound(key))
  }

  /** `ids.map(getTaxon)`: every id looked up in order; the first missing one throws. */
  function GetTaxons(taxons: seq<RawTaxon>, ids: seq<string>): (r: Result<seq<RawTaxon>>)
    ensures r.Ok? <==> forall k :: k in ids ==> HasTaxon(taxons, k)
    ensures r.Ok? ==> |r.value| == |ids| &&
                      forall i :: 0 <= i < |ids| ==> r.value[i] == GetTaxon(taxons, ids[i]).value
    ensures r.Err? ==> exists i :: 0 <= i < |ids| && r.error == TaxonNotFound(ids[i]) &&
                                   !HasTaxon(taxons, ids[i]) &&
                                   forall j :: 0 <= j < i ==> HasTaxon(taxons, ids[j])
  {
    MapResult(ids, (k: string) => GetTaxon(taxons, k))
  }

  /** `ids.map(getTaxonomy)`. */
  function GetTaxonomies(taxonomies: seq<RawTaxonomy>, ids: seq<string>): (r: Result<seq<RawTaxonomy>>)
    ensures r.Ok? <==> forall k :: k in ids ==> HasTaxonomy(taxonomies, k)
    ensures r.Ok? ==> |r.value| == |ids| &&
                      forall i :: 0 <= i < |ids| ==> r.value[i] == GetTaxonomy(taxonomies, ids[i]).value
    ensures r.Err? ==> exists i :: 0 <= i < |ids| && r.error == TaxonomyNotFound(ids[i]) &&
                                   !HasTaxonomy(taxonomies, ids[i]) &&
                                   forall j :: 0 <= j < i ==> HasTaxonomy(taxonomies, ids[j])
  {
    MapResult(ids, (k: string) => GetTaxonomy(taxonomies, k))
  }

  // ---------------------------------------------------------------------------
  // Acyclicity: the code follows child ids without any cycle check, so every
  // recursion below assumes a rank that strictly decreases from parent to child.

  /** `rank` witnesses that the taxon table has no cycle: every taxon is ranked,
      and every ranked child sits strictly below its parent. */
  ghost predicate Ranked(taxons: seq<RawTaxon>, rank: map<string, nat>)
  {
    && (forall i :: 0 <= i < |taxons| ==> taxons[i].id in rank)
    && (forall i, c :: 0 <= i < |taxons| && c in ChildIds(taxons[i]) && c in rank ==>
          rank[c] < rank[taxons[i].id])
  }

  /** The termination measure of a taxon id: unknown ids fail at once. */
  ghost function Height(rank: map<string, nat>, key: string): nat
  {
    if key in rank then rank[key] + 1 else 0
  }

  lemma ChildBelow(taxons: seq<RawTaxon>, rank: map<string, nat>, t: RawTaxon, c: string)
    requires Ranked(taxons, rank) && t in taxons && c in ChildIds(t)
    ensures Height(rank, c) < Height(rank, t.id)
  {
    var i :| 0 <= i < |taxons| && taxons[i] == t;
  }

  lemma ChildrenBelow(taxons: seq<RawTaxon>, rank: map<string, nat>, t: RawTaxon, children: seq<RawTaxon>)
    requires Ranked(taxons, rank) && t in taxons
    requires GetTaxons(taxons, ChildIds(t)) == Ok(children)
    ensures forall i :: 0 <= i < |children| ==> children[i] in taxons && Height(rank, children[i].id) < Height(rank, t.id)
  {
    forall i | 0 <= i < |children|
      ensures children[i] in taxons && Height(rank, children[i].id) < Height(rank, t.id)
    {
      ChildBelow(taxons, rank, t, ChildIds(t)[i]);
    }
  }

  lemma ChildIdsBelow(taxons: seq<RawTaxon>, rank: map<string, nat>, t: RawTaxon)
    requires Ranked(taxons, rank) && t in taxons
    ensures forall c :: c in ChildIds(t) ==> Height(rank, c) < Height(rank, t.id)
  {
    forall c | c in ChildIds(t) ensures Height(rank, c) < Height(rank, t.id) {
      ChildBelow(taxons, rank, t, c);
    }
  }

  /** A bound above the heights of all `ids`. */
  ghost function Bound(rank: map<string, nat>, ids: seq<string>): (b: nat)
    ensures forall k :: k in ids ==> Height(rank, k) < b
  {
    if ids == [] then 0
    else
      var rest := Bound(rank, ids[1..]);
      assert forall k :: k in ids ==> k == ids[0] || k in ids[1..];
      if Height(rank, ids[0]) < rest then rest else Height(rank, ids[0]) + 1
  }

  /** Every id reachable from `t` names a taxon of the table: exactly when the
      walks over `t`'s subtree complete without a lookup failure. */
  ghost predicate Closed(taxons: seq<RawTaxon>, rank: map<string, nat>, t: RawTaxon)
    requires Ranked(taxons, rank) && t in taxons
    decreases Height(rank, t.id)
  {
    forall c :: c in ChildIds(t) ==>
      HasTaxon(taxons, c) &&
      (ChildBelow(taxons, rank, t, c);
       Closed(taxons, rank, GetTaxon(taxons, c).value))
  }

  /** Every taxon id the taxonomy lists, and every id below them, names a taxon. */
  ghost predicate TaxonomyClosed(taxons: seq<RawTaxon>, rank: map<string, nat>, taxonomy: RawTaxonomy)
    requires Ranked(taxons, rank)
  {
    forall k :: k in taxonomy.taxons ==>
      HasTaxon(taxons, k) && Closed(taxons, rank, GetTaxon(taxons, k).value)
  }

  /** Every taxonomy id the catalog lists names a taxonomy, and each of those is closed. */
  ghost predicate CatalogClosed(data: RawData, rank: map<string, nat>, catalog: RawCatalog)
    requires Ranked(data.taxons, rank)
  {
    forall k :: k in catalog.taxonomies ==>
      HasTaxonomy(data.taxonomies, k) &&
      TaxonomyClosed(data.taxons, rank, GetTaxonomy(data.taxonomies, k).value)
  }

  // ---------------------------------------------------------------------------
  // flattenReferences

  /** `flattenReferences`: the taxon's own references, then those of each child
      subtree in child order; duplicates kept. */
  function FlattenReferences(taxons: seq<RawTaxon>, ghost rank: map<string, nat>, t: RawTaxon): (r: Result<seq<string>>)
    requires Ranked(taxons, rank) && t in taxons
    ensures r.Ok? ==> t.references <= r.value
    ensures ChildIds(t) == [] ==> r == Ok(t.references)
    ensures r.Err? ==> r.error.TaxonNotFound?
    decreases Height(rank, t.id), 1
  {
    var children :- GetTaxons(taxons, ChildIds(t));
    ChildrenBelow(taxons, rank, t, children);
    var rest :- FlattenEach(taxons, rank, Height(rank, t.id), children);
    assert ChildIds(t) == [] ==> children == [] && t.references + rest == t.references;
    Ok(t.references + rest)
  }

  /** `children.flatMap(flattenReferences)`. */
  function FlattenEach(taxons: seq<RawTaxon>, ghost rank: map<string, nat>, ghost bound: nat, ts: seq<RawTaxon>): (r: Result<seq<string>>)
    requires Ranked(taxons, rank)
    requires forall i :: 0 <= i < |ts| ==> ts[i] in taxons && Height(rank, ts[i].id) < bound
    ensures r.Err? ==> r.error.TaxonNotFound?
    decreases bound, 0, |ts|
  {
    if ts == [] then Ok([])
    else
      var head :- FlattenReferences(taxons, rank, ts[0]);
      var tail :- FlattenEach(taxons, rank, bound, ts[1..]);
      Ok(head + tail)
  }

  /** The flattening fails exactly when some id in the subtree names no taxon. */
  lemma {:induction false} FlattenReferencesOk(taxons: seq<RawTaxon>, rank: map<string, nat>, t: RawTaxon)
    requires Ranked(taxons, rank) && t in taxons
    ensures FlattenReferences(taxons, rank, t).Ok? <==> Closed(taxons, rank, t)
    decreases Height(rank, t.id), 1
  {
    var ids := ChildIds(t);
    var g := GetTaxons(taxons, ids);
    if g.Ok? {
      var children := g.value;
      ChildrenBelow(taxons, rank, t, children);
      FlattenEachOk(taxons, rank, Height(rank, t.id), children);
      assert (forall i :: 0 <= i < |children| ==> Closed(taxons, rank, children[i])) <==> Closed(taxons, rank, t) by {
        forall c | c in ids ensures HasTaxon(taxons, c) && children[IndexOf(ids, c)] == GetTaxon(taxons, c).value {
        }
      }
    } else {
      var i :| 0 <= i < |ids| && !HasTaxon(taxons, ids[i]);
      assert ids[i] in ids;
    }
  }

  lemma {:induction false} FlattenEachOk(taxons: seq<RawTaxon>, rank: map<string, nat>, bound: nat, ts: seq<RawTaxon>)
    requires Ranked(taxons, rank)
    requires forall i :: 0 <= i < |ts| ==> ts[i] in taxons && Height(rank, ts[i].id) < bound
    ensures FlattenEach(taxons, rank, bound, ts).Ok? <==> forall i :: 0 <= i < |ts| ==> Closed(taxons, rank, ts[i])
    decreases bound, 0, |ts|
  {
    if ts != [] {
      var rest := ts[1..];
      FlattenReferencesOk(taxons, rank, ts[0]);
      FlattenEachOk(taxons, rank, bound, rest);
      assert (forall i :: 0 <= i < |ts| ==> Closed(taxons, rank, ts[i])) <==>
             Closed(taxons, rank, ts[0]) && forall i :: 0 <= i < |rest| ==> Closed(taxons, rank, rest[i]) by {
        assert forall i :: 1 <= i < |ts| ==> ts[i] == rest[i - 1];
      }
    }
  }

  /** A child's references all reach the parent's flattening, duplicates included,
      after the parent's own. */
  lemma FlattenReferencesChild(taxons: seq<RawTaxon>, rank: map<string, nat>, t: RawTaxon, c: string)
    requires Ranked(taxons, rank) && t in taxons && c in ChildIds(t)
    requires FlattenReferences(taxons, rank, t).Ok?
    ensures HasTaxon(taxons, c)
    ensures FlattenReferences(taxons, rank, GetTaxon(taxons, c).value).Ok?
    ensures multiset(t.references) + multiset(FlattenReferences(taxons, rank, GetTaxon(taxons, c).value).value)
            <= multiset(FlattenReferences(taxons, rank, t).value)
  {
    var ids := ChildIds(t);
    var children := GetTaxons(taxons, ids).value;
    ChildrenBelow(taxons, rank, t, children);
    var k := IndexOf(ids, c);
    assert children[k] in children;
    FlattenEachPart(taxons, rank, Height(rank, t.id), children, children[k]);
  }

  lemma {:induction false} FlattenEachPart(taxons: seq<RawTaxon>, rank: map<string, nat>, bound: nat, ts: seq<RawTaxon>, t: RawTaxon)
    requires Ranked(taxons, rank)
    requires forall i :: 0 <= i < |ts| ==> ts[i] in taxons && Height(rank, ts[i].id) < bound
    requires t in ts && FlattenEach(taxons, rank, bound, ts).Ok?
    ensures t in taxons && FlattenReferences(taxons, rank, t).Ok?
    ensures multiset(FlattenReferences(taxons, rank, t).value) <= multiset(FlattenEach(taxons, rank, bound, ts).value)
    decreases |ts|
  {
    if ts[0] == t {
      FlattenEachHead(taxons, rank, bound, ts);
    } else {
      FlattenEachTail(taxons, rank, bound, ts);
      FlattenEachPart(taxons, rank, bound, ts[1..], t);
    }
  }

  /** The first subtree's references are part of the `flatMap`. */
  lemma FlattenEachHead(taxons: seq<RawTaxon>, rank: map<string, nat>, bound: nat, ts: seq<RawTaxon>)
    requires Ranked(taxons, rank)
    requires forall i :: 0 <= i < |ts| ==> ts[i] in taxons && Height(rank, ts[i].id) < bound
    requires ts != [] && FlattenEach(taxons, rank, bound, ts).Ok?
    ensures FlattenReferences(taxons, rank, ts[0]).Ok?
    ensures multiset(FlattenReferences(taxons, rank, ts[0]).value) <= multiset(FlattenEach(taxons, rank, bound, ts).value)
  {
  }

  /** The later subtrees' references are part of the `flatMap`. */
  lemma FlattenEachTail(taxons: seq<RawTaxon>, rank: map<string, nat>, bound: nat, ts: seq<RawTaxon>)
    requires Ranked(taxons, rank)
    requires forall i :: 0 <= i < |ts| ==> ts[i] in taxons && Height(rank, ts[i].id) < bound
    requires ts != [] && FlattenEach(taxons, rank, bound, ts).Ok?
    ensures forall i :: 0 <= i < |ts[1..]| ==> ts[1..][i] in taxons && Height(rank, ts[1..][i].id) < bound
    ensures FlattenEach(taxons, rank, bound, ts[1..]).Ok?
    ensures multiset(FlattenEach(taxons, rank, bound, ts[1..]).value) <= multiset(FlattenEach(taxons, rank, bound, ts).value)
  {
  }

  /** The references a subtree flattens to, or nothing when it fails. */
  ghost function Flattened(taxons: seq<RawTaxon>, rank: map<string, nat>, t: RawTaxon): seq<string>
    requires Ranked(taxons, rank) && t in taxons
  {
    match FlattenReferences(taxons, rank, t)
    case Ok(refs) => refs
    case Err(_) => []
  }

  /** The flattening of each taxon of `ts`, in order. */
  ghost function Flattenings(taxons: seq<RawTaxon>, rank: map<string, nat>, ts: seq<RawTaxon>): (r: seq<seq<string>>)
    requires Ranked(taxons, rank)
    requires forall i :: 0 <= i < |ts| ==> ts[i] in taxons
    ensures |r| == |ts| && forall i :: 0 <= i < |ts| ==> r[i] == Flattened(taxons, rank, ts[i])
  {
    seq(|ts|, i requires 0 <= i < |ts| => Flattened(taxons, rank, ts[i]))
  }

  lemma FlatteningsTail(taxons: seq<RawTaxon>, rank: map<string, nat>, ts: seq<RawTaxon>)
    requires Ranked(taxons, rank) && ts != []
    requires forall i :: 0 <= i < |ts| ==> ts[i] in taxons
    ensures Concat(Flattenings(taxons, rank, ts))
         == Flattened(taxons, rank, ts[0]) + Concat(Flattenings(taxons, rank, ts[1..]))
  {
    assert Flattenings(taxons, rank, ts)[1..] == Flattenings(taxons, rank, ts[1..]);
  }

  /** One step of the `flatMap`: the first subtree's references, then the rest. */
  lemma FlattenEachSplit(taxons: seq<RawTaxon>, rank: map<string, nat>, bound: nat, ts: seq<RawTaxon>)
    requires Ranked(taxons, rank)
    requires forall i :: 0 <= i < |ts| ==> ts[i] in taxons && Height(rank, ts[i].id) < bound
    requires ts != [] && FlattenEach(taxons, rank, bound, ts).Ok?
    ensures forall i :: 0 <= i < |ts[1..]| ==> ts[1..][i] in taxons && Height(rank, ts[1..][i].id) < bound
    ensures FlattenReferences(taxons, rank, ts[0]).Ok? && FlattenEach(taxons, rank, bound, ts[1..]).Ok?
    ensures FlattenEach(taxons, rank, bound, ts).value
         == FlattenReferences(taxons, rank, ts[0]).value + FlattenEach(taxons, rank, bound, ts[1..]).value
  {
  }

  /** `flatMap` is `map` then `flat`: every subtree flattens, and the results are
      joined in order. */
  lemma {:induction false} FlattenEachIsConcat(taxons: seq<RawTaxon>, rank: map<string, nat>, bound: nat, ts: seq<RawTaxon>)
    requires Ranked(taxons, rank)
    requires forall i :: 0 <= i < |ts| ==> ts[i] in taxons && Height(rank, ts[i].id) < bound
    requires FlattenEach(taxons, rank, bound, ts).Ok?
    ensures forall i :: 0 <= i < |ts| ==> FlattenReferences(taxons, rank, ts[i]).Ok?
    ensures FlattenEach(taxons, rank, bound, ts).value == Concat(Flattenings(taxons, rank, ts))
    decreases |ts|
  {
    if ts != [] {
      var rest := ts[1..];
      FlattenEachSplit(taxons, rank, bound, ts);
      FlattenEachIsConcat(taxons, rank, bound, rest);
      assert forall i :: 1 <= i < |ts| ==> ts[i] == rest[i - 1];
      FlatteningsTail(taxons, rank, ts);
    }
  }


  /** The flattening of `t` is exactly its own references followed by the
      flattenings of its children, in child-id order: nothing added, nothing lost. */
  lemma FlattenReferencesIsConcat(taxons: seq<RawTaxon>, rank: map<string, nat>, t: RawTaxon)
    requires Ranked(taxons, rank) && t in taxons
    requires FlattenReferences(taxons, rank, t).Ok?
    ensures GetTaxons(taxons, ChildIds(t)).Ok?
    ensures var children := GetTaxons(taxons, ChildIds(t)).value;
            && (forall i :: 0 <= i < |children| ==> children[i] in taxons && FlattenReferences(taxons, rank, children[i]).Ok?)
            && FlattenReferences(taxons, rank, t).value == t.references + Concat(Flattenings(taxons, rank, children))
  {
    var children := GetTaxons(taxons, ChildIds(t)).value;
    ChildrenBelow(taxons, rank, t, children);
    FlattenEachIsConcat(taxons, rank, Height(rank, t.id), children);
  }

  /** A taxon with references ["a", "b"] and one child with references ["c"]
      flattens to ["a", "b", "c"]. */
  lemma FlattenReferencesExample()
    ensures var child := RawTaxon("c1", "child", map[], map[], "child", None, ["c"], None);
            var parent := RawTaxon("p", "parent", map[], map[], "parent", None, ["a", "b"], Some(["c1"]));
            var taxons := [parent, child];
            var rank := map["p" := 1, "c1" := 0];
            Ranked(taxons, rank) &&
            FlattenReferences(taxons, rank, parent) == Ok(["a", "b", "c"])
  {
    var child := RawTaxon("c1", "child", map[], map[], "child", None, ["c"], None);
    var parent := RawTaxon("p", "parent", map[], map[], "parent", None, ["a", "b"], Some(["c1"]));
    var taxons := [parent, child];
    var rank := map["p" := 1, "c1" := 0];
    assert taxons[1].id == "c1" && taxons[0].id != "c1";
    assert HasTaxon(taxons, "c1");
    assert GetTaxon(taxons, "c1") == Ok(child);
    var g := GetTaxons(taxons, ["c1"]);
    assert "c1" in ["c1"];
    assert g.Ok? && |g.value| == 1 && g.value[0] == child;
    assert g.value == [child];
    assert FlattenReferences(taxons, rank, child) == Ok(["c"]);
    assert FlattenEach(taxons, rank, Height(rank, "p"), [child]) == Ok(["c"]);
    assert ChildIds(parent) == ["c1"];
    assert GetTaxons(taxons, ChildIds(parent)) == Ok([child]);
    assert ["a", "b"] + ["c"] == ["a", "b", "c"];
  }
}
