/** The public face of the search service (SearchService.java:46-158,
    289-298): numeric queries go to the SKU lookup, everything else to the
    staged resolver, and the narrow search is enriched with the region's item
    rows, the categories of those items and a "see also" hint. */
module Orchestrator {
  import opened Wrappers
  import opened JavaText
  import opened Layout
  import opened Model
  import opened Grouper
  import opened Resolver

  /** `getByName(num)`: items whose name matches `.*num.*`, grouped with no
      brand. A name search never carries a brand: each group is non-empty and
      unbranded, and only an empty page gives no groups. */
  function GetByName(env: Env, num: string): (r: seq<CatalogueGroup>)
    requires ValidOrder(env.hashOrder)
    ensures |r| == 0 <==> env.index(ByName(".*" + num + ".*"), FullPage) == []
    ensures forall g :: g in r ==> g.brand == None && g.items.Some? && g.items.value != []
  {
    Get(env.index(ByName(".*" + num + ".*"), FullPage), num, "", env.hashOrder)
  }

  /** `getByItemId(itemId)`: one group holding the whole one-item page and
      named after its first item; `get(0)` on an empty page fails. */
  function GetByItemId(env: Env, itemId: string): (r: Result<seq<CatalogueGroup>, Failure>)
    ensures var page := env.index(ByItemId(itemId), SinglePage);
      && (r.Err? <==> page == [])
      && (r.Err? ==> r.error == IndexOutOfBounds)
      && (r.Ok? ==> (|r.value| == 1 && r.value[0].items == Some(page)
            && r.value[0].catalogue == page[0].catalogue && r.value[0].brand == Some(page[0].brand)))
  {
    var list := env.index(ByItemId(itemId), SinglePage);
    if list == [] then Err(IndexOutOfBounds)
    else Ok([CatalogueGroup(list[0].catalogue, list[0].catalogueId, Some(list), Some(list[0].brand))])
  }

  /** `getResultFromText(text, pageable)`. Digits-only text is looked up by
      SKU; a failure of the item-id lookup is swallowed and the name search
      answers instead. Other text goes to the staged resolver with the full
      page size when the full page was asked for and the small one otherwise,
      so the only failure left is the resolver's early exit on an empty list. */
  function GetResultFromText(env: Env, text: string, page: nat): (r: Result<seq<CatalogueGroup>, Failure>)
    requires ValidOrder(env.hashOrder)
    ensures var o := Resolve(env, if page == FullPage then FullPage else SmallPage, text);
      r.Err? <==> !IsNumeric(Some(text)) && o.BrandOnly? && o.st.list == []
    ensures r.Err? ==> r.error == IndexOutOfBounds
  {
    if !IsNumeric(Some(text)) then
      GetAll(env, if page == FullPage then FullPage else SmallPage, text)
    else
      var ids := env.store.bySku(text);
      if ids != [] && GetByItemId(env, IntToString(ids[0])).Ok? then GetByItemId(env, IntToString(ids[0]))
      else Ok(GetByName(env, text))
  }

  /** `getResultFromTextSmall`. */
  function GetResultFromTextSmall(env: Env, text: string): Result<seq<CatalogueGroup>, Failure>
    requires ValidOrder(env.hashOrder)
  {
    GetResultFromText(env, text, SmallPage)
  }

  /** `getResultFromTextFull`. */
  function GetResultFromTextFull(env: Env, text: string): Result<seq<CatalogueGroup>, Failure>
    requires ValidOrder(env.hashOrder)
  {
    GetResultFromText(env, text, FullPage)
  }

  /** A numeric query whose first SKU match has an indexed item answers with
      that item's group. */
  lemma NumericSkuHit(env: Env, text: string, page: nat)
    requires ValidOrder(env.hashOrder)
    requires IsNumeric(Some(text)) && env.store.bySku(text) != []
    requires env.index(ByItemId(IntToString(env.store.bySku(text)[0])), SinglePage) != []
    ensures var items := env.index(ByItemId(IntToString(env.store.bySku(text)[0])), SinglePage);
      GetResultFromText(env, text, page)
        == Ok([CatalogueGroup(items[0].catalogue, items[0].catalogueId, Some(items), Some(items[0].brand))])
  {
  }

  /** A numeric query with no SKU match, or whose item id is not indexed,
      falls through to the name search and never fails. */
  lemma NumericSkuMiss(env: Env, text: string, page: nat)
    requires ValidOrder(env.hashOrder)
    requires IsNumeric(Some(text))
    requires env.store.bySku(text) == [] || env.index(ByItemId(IntToString(env.store.bySku(text)[0])), SinglePage) == []
    ensures GetResultFromText(env, text, page) == Ok(GetByName(env, text))
  {
  }

  /** Only non-numeric text can make the dispatch fail, and then only in the
      resolver; the resolver is asked with page size 150 exactly when the full
      page was requested, else with 10. */
  lemma DispatchFailure(env: Env, text: string, page: nat)
    requires ValidOrder(env.hashOrder)
    ensures IsNumeric(Some(text)) ==> GetResultFromText(env, text, page).Ok?
    ensures !IsNumeric(Some(text)) ==>
      GetResultFromText(env, text, page) == GetAll(env, if page == FullPage then 150 else 10, text)
  {
  }

  /** The items of all groups in order; the `flatMap` fails on the first
      group without an item list. */
  function AllItems(result: seq<CatalogueGroup>): (r: Result<seq<IndexedItem>, Failure>)
    ensures r.Err? <==> exists i :: 0 <= i < |result| && result[i].items.None?
    ensures r.Err? ==> r.error == NullPointer
    ensures r.Ok? ==> forall x :: x in r.value <==> exists i :: 0 <= i < |result| && x in result[i].items.value
  {
    if result == [] then Ok([])
    else if result[0].items.None? then Err(NullPointer)
    else
      var rest := AllItems(result[1..]);
      if rest.Err? then rest
      else
        assert forall i :: 1 <= i < |result| ==> result[i] == result[1..][i - 1];
        Ok(result[0].items.value + rest.value)
  }

  /** The ids of index records; `ItemIds` below does the same for store rows,
      a different record type. */
  function IndexedIds(items: seq<IndexedItem>): (r: seq<int>)
    ensures |r| == |items| && forall i :: 0 <= i < |items| ==> r[i] == items[i].itemId
  {
    if items == [] then [] else [items[0].itemId] + IndexedIds(items[1..])
  }

  /** `getItemsByResult(regionId, result)`: the region's store rows for the
      ids of every found item, in group order. */
  function GetItemsByResult(env: Env, regionId: int, result: seq<CatalogueGroup>): (r: Result<seq<Item>, Failure>)
    ensures r.Err? <==> exists i :: 0 <= i < |result| && result[i].items.None?
    ensures r.Ok? ==> r.value == env.store.byIds(regionId, IndexedIds(AllItems(result).value))
  {
    var all :- AllItems(result);
    Ok(env.store.byIds(regionId, IndexedIds(all)))
  }

  /** `extractBrandFromResult`: the first group's brand, lower-cased. */
  function ExtractBrand(env: Env, result: seq<CatalogueGroup>): string {
    if result == [] then ""
    else match result[0].brand
      case None => ""
      case Some(b) => env.lower(b)
  }

  /** The brand `get` was given comes back out of its groups lower-cased; an
      empty brand, or an empty result, gives "". */
  lemma ExtractBrandOfGet(env: Env, list: seq<IndexedItem>, name: string, brand: string)
    requires ValidOrder(env.hashOrder)
    ensures ExtractBrand(env, Get(list, name, brand, env.hashOrder))
      == if list == [] || brand == "" then "" else env.lower(brand)
  {
    var r := Get(list, name, brand, env.hashOrder);
    if r != [] {
      assert r[0] in r;
    }
  }

  /** The hint list: empty for an empty result, else one "see also" hint made
      of the first group's first item type and the brand, trimmed; reading the
      item list of a group that has none fails. */
  function HelpText(result: seq<CatalogueGroup>, brand: string): (r: Result<seq<TypeHelpText>, Failure>)
    ensures result == [] ==> r == Ok([])
    ensures result != [] ==> (r.Err? <==> result[0].items.None?)
    ensures r.Ok? && result != [] ==> |r.value| == 1 && r.value[0].kind == SeeAlso
  {
    if result == [] then Ok([])
    else match result[0].items
      case None => Err(NullPointer)
      case Some(items) =>
        var first := if items == [] then "" else items[0].itemType;
        Ok([TypeHelpText(SeeAlso, Trim(first + " " + brand))])
  }

  /** For a result whose groups all carry items, the hint exists exactly when
      the result is non-empty, and it is the trimmed type-and-brand text. */
  lemma HintIffResult(result: seq<CatalogueGroup>, brand: string)
    requires forall i :: 0 <= i < |result| ==> result[i].items.Some? && result[i].items.value != []
    ensures HelpText(result, brand).Ok?
    ensures |HelpText(result, brand).value| == 0 <==> result == []
    ensures result != [] ==>
      HelpText(result, brand).value == [TypeHelpText(SeeAlso, Trim(result[0].items.value[0].itemType + " " + brand))]
  {
  }

  /** The ids of store rows, the keys the category lookup takes; `IndexedIds`
      is its counterpart for index records. */
  function ItemIds(items: seq<Item>): (r: seq<int>)
    ensures |r| == |items| && forall i :: 0 <= i < |items| ==> r[i] == items[i].itemId
  {
    if items == [] then [] else [items[0].itemId] + ItemIds(items[1..])
  }

  /** The category codes of some rows. */
  ghost function Codes(rows: seq<CategoryRow>): set<string> {
    set i | 0 <= i < |rows| :: rows[i].code
  }

  /** The rows whose code has not been seen earlier, as the `catUrls` set
      filters them in one pass. */
  function DedupFrom(rows: seq<CategoryRow>, seen: set<string>): (r: seq<CategoryRow>)
    ensures |r| <= |rows|
  {
    if rows == [] then []
    else if rows[0].code in seen then DedupFrom(rows[1..], seen)
    else [rows[0]] + DedupFrom(rows[1..], seen + {rows[0].code})
  }

  /** Reference definition of the filter, read from the end: a row is kept
      exactly when no earlier row has its code. */
  ghost function FirstOccurrences(rows: seq<CategoryRow>): seq<CategoryRow> {
    if rows == [] then []
    else
      var prefix := rows[..|rows| - 1];
      var last := rows[|rows| - 1];
      if last.code in Codes(prefix) then FirstOccurrences(prefix) else FirstOccurrences(prefix) + [last]
  }

  lemma CodesCons(rows: seq<CategoryRow>)
    requires rows != []
    ensures Codes(rows) == {rows[0].code} + Codes(rows[1..])
  {
    forall c | c in Codes(rows) ensures c in {rows[0].code} + Codes(rows[1..]) {
      var i :| 0 <= i < |rows| && rows[i].code == c;
      if i > 0 { assert rows[1..][i - 1] == rows[i]; }
    }
    forall c | c in Codes(rows[1..]) ensures c in Codes(rows) {
      var i :| 0 <= i < |rows[1..]| && rows[1..][i].code == c;
      assert rows[i + 1] == rows[1..][i];
    }
  }

  lemma CodesSnoc(rows: seq<CategoryRow>, x: CategoryRow)
    ensures Codes(rows + [x]) == Codes(rows) + {x.code}
  {
    var l := rows + [x];
    forall c | c in Codes(l) ensures c in Codes(rows) + {x.code} {
      var i :| 0 <= i < |l| && l[i].code == c;
      if i < |rows| { assert rows[i] == l[i]; }
    }
    forall c | c in Codes(rows) ensures c in Codes(l) {
      var i :| 0 <= i < |rows| && rows[i].code == c;
      assert l[i] == rows[i];
    }
    assert l[|rows|] == x;
  }

  lemma {:induction false} DedupSnoc(rows: seq<CategoryRow>, x: CategoryRow, seen: set<string>)
    ensures DedupFrom(rows + [x], seen)
         == DedupFrom(rows, seen) + (if x.code in seen + Codes(rows) then [] else [x])
    decreases |rows|
  {
    if rows == [] {
      assert rows + [x] == [x];
      assert DedupFrom([x], seen) == (if x.code in seen then [] else [x] + DedupFrom([], seen + {x.code}));
    } else {
      var c := rows[0].code;
      assert (rows + [x])[1..] == rows[1..] + [x];
      assert (rows + [x])[0] == rows[0];
      CodesCons(rows);
      if c in seen {
        DedupSnoc(rows[1..], x, seen);
        assert seen + Codes(rows) == seen + Codes(rows[1..]);
      } else {
        DedupSnoc(rows[1..], x, seen + {c});
        assert seen + Codes(rows) == (seen + {c}) + Codes(rows[1..]);
      }
    }
  }

  /** The single pass with the `catUrls` set keeps exactly the first row of
      every code, in input order. */
  lemma {:induction false} DedupIsFirstOccurrences(rows: seq<CategoryRow>)
    ensures DedupFrom(rows, {}) == FirstOccurrences(rows)
    decreases |rows|
  {
    if rows != [] {
      var prefix := rows[..|rows| - 1];
      var last := rows[|rows| - 1];
      assert rows == prefix + [last];
      DedupSnoc(prefix, last, {});
      DedupIsFirstOccurrences(prefix);
      assert {} + Codes(prefix) == Codes(prefix);
    }
  }

  /** The kept rows are input rows, no two share a code, and every code of the
      input is kept. */
  lemma {:induction false} FirstOccurrencesShape(rows: seq<CategoryRow>)
    ensures var kept := FirstOccurrences(rows);
      && (forall k :: 0 <= k < |kept| ==> kept[k] in rows)
      && (forall k1, k2 :: 0 <= k1 < k2 < |kept| ==> kept[k1].code != kept[k2].code)
      && Codes(kept) == Codes(rows)
    decreases |rows|
  {
    if rows != [] {
      var prefix := rows[..|rows| - 1];
      var last := rows[|rows| - 1];
      assert rows == prefix + [last];
      FirstOccurrencesShape(prefix);
      CodesSnoc(prefix, last);
      var kp := FirstOccurrences(prefix);
      if last.code !in Codes(prefix) {
        CodesSnoc(kp, last);
        var kept := kp + [last];
        forall k1, k2 | 0 <= k1 < k2 < |kept| ensures kept[k1].code != kept[k2].code {
          if k2 == |kp| {
            assert kept[k1] == kp[k1];
            assert kp[k1].code in Codes(kp);
          } else {
            assert kept[k1] == kp[k1] && kept[k2] == kp[k2];
          }
        }
        forall k | 0 <= k < |kept| ensures kept[k] in rows {
          if k < |kp| { assert kept[k] == kp[k]; assert kp[k] in prefix; }
        }
      } else {
        forall k | 0 <= k < |kp| ensures kp[k] in rows {
          assert kp[k] in prefix;
        }
      }
    }
  }

  /** One category from one store row. */
  function CategoryOf(row: CategoryRow, brand: string): Category {
    Category(row.name, row.title,
             "/cat/" + row.code + (if brand == "" then "" else "/brands/" + brand),
             "/cat/" + row.parentCode, row.icon)
  }

  function CategoriesOf(rows: seq<CategoryRow>, brand: string): (r: seq<Category>)
    ensures |r| == |rows|
    ensures forall k :: 0 <= k < |rows| ==> r[k] == CategoryOf(rows[k], brand)
  {
    if rows == [] then [] else [CategoryOf(rows[0], brand)] + CategoriesOf(rows[1..], brand)
  }

  /** `getCategoriesByItems(items, brand)`. */
  function GetCategoriesByItems(env: Env, items: seq<Item>, brand: string): seq<Category> {
    CategoriesOf(DedupFrom(env.store.categoriesByIds(ItemIds(items)), {}), brand)
  }

  /** The categories are the store's rows for the items' ids with repeated
      codes dropped (first occurrence wins, order kept), so no two share a
      path; each path is `/cat/` and the code, scoped by `/brands/` and the
      brand exactly when the brand is non-empty; the parent path is `/cat/`
      and the parent code; the icon is carried over, null included. */
  lemma CategoriesShape(env: Env, items: seq<Item>, brand: string)
    ensures var rows := env.store.categoriesByIds(ItemIds(items));
      var kept := FirstOccurrences(rows);
      var r := GetCategoriesByItems(env, items, brand);
      && |r| == |kept|
      && (forall k :: 0 <= k < |r| ==>
            && kept[k] in rows
            && r[k].url == (if brand == "" then "/cat/" + kept[k].code else "/cat/" + kept[k].code + "/brands/" + brand)
            && r[k].parentUrl == "/cat/" + kept[k].parentCode
            && r[k].image == kept[k].icon
            && r[k].name == kept[k].name && r[k].title == kept[k].title)
      && (forall k1, k2 :: 0 <= k1 < k2 < |r| ==> kept[k1].code != kept[k2].code)
      && Codes(kept) == Codes(rows)
  {
    var rows := env.store.categoriesByIds(ItemIds(items));
    DedupIsFirstOccurrences(rows);
    FirstOccurrencesShape(rows);
    var r := GetCategoriesByItems(env, items, brand);
    forall k | 0 <= k < |r|
      ensures r[k].url == (if brand == "" then "/cat/" + FirstOccurrences(rows)[k].code
                           else "/cat/" + FirstOccurrences(rows)[k].code + "/brands/" + brand)
    {
      var c := FirstOccurrences(rows)[k].code;
      if brand == "" {
        assert "/cat/" + c + "" == "/cat/" + c;
      }
    }
  }

  /** `getSearchResult(regionId, text)`: the narrow search, the region's item
      rows, the categories of those items under the extracted brand, and the
      hint. */
  function GetSearchResult(env: Env, regionId: int, text: string): (r: Result<SearchResult, Failure>)
    requires ValidOrder(env.hashOrder)
    ensures GetResultFromTextSmall(env, text).Err? ==> r.Err?
    ensures var found := GetResultFromTextSmall(env, text);
      found.Ok? && (exists i :: 0 <= i < |found.value| && found.value[i].items.None?) ==> r.Err?
    ensures r.Ok? ==>
      GetResultFromTextSmall(env, text).Ok?
      && |r.value.hints| <= 1
      && (r.value.hints == [] <==> GetResultFromTextSmall(env, text).value == [])
  {
    var result :- GetResultFromTextSmall(env, text);
    var items :- GetItemsByResult(env, regionId, result);
    var brand := ExtractBrand(env, result);
    match HelpText(result, brand)
    case Err(e) => Err(e)
    case Ok(hints) => Ok(SearchResult(items, GetCategoriesByItems(env, items, brand), hints))
  }

  /** Text that is all brand reaches the early exit of the resolver, whose
      group has no item list: the narrow search fails on it either way. */
  lemma BrandOnlyQueryFails(env: Env, regionId: int, text: string)
    requires ValidOrder(env.hashOrder)
    ensures !IsNumeric(Some(text)) && Resolve(env, SmallPage, text).BrandOnly? ==>
      GetSearchResult(env, regionId, text).Err?
  {
    if !IsNumeric(Some(text)) && Resolve(env, SmallPage, text).BrandOnly? {
      DispatchFailure(env, text, SmallPage);
      var r := GetAll(env, SmallPage, text);
      assert r.Ok? ==> r.value[0].items.None?;
    }
  }

  /** An index that finds nothing, and a store that has nothing for no ids,
      give an empty search result, whatever the text. */
  lemma NothingFoundIsEmpty(env: Env, regionId: int, text: string)
    requires ValidOrder(env.hashOrder)
    requires forall q, n :: env.index(q, n) == []
    requires env.store.byIds(regionId, []) == [] && env.store.categoriesByIds([]) == []
    ensures GetSearchResult(env, regionId, text) == Ok(SearchResult([], [], []))
  {
    var result := GetResultFromTextSmall(env, text);
    if !IsNumeric(Some(text)) {
      NothingFoundResolves(env, SmallPage, text);
    }
    assert result == Ok([]);
  }

  /** With an index that finds nothing no brand is ever found, so the
      resolver runs to the end and `get` receives an empty list. */
  lemma NothingFoundResolves(env: Env, page: nat, text: string)
    requires ValidOrder(env.hashOrder)
    requires forall q, n :: env.index(q, n) == []
    ensures GetAll(env, page, text) == Ok([])
  {
    ResolveTrace(env, page, text);
    NoBrandFromEmptyIndex(env, page, text);
    var o := Resolve(env, page, text);
    assert o.Listed?;
  }

  lemma NoBrandFromEmptyIndex(env: Env, page: nat, text: string)
    requires forall q, n :: env.index(q, n) == []
    ensures Early(env, page, text).brand == ""
  {
    var s0 := Prepare(text);
    BrandFromIndex(env, page, s0);
  }
}
