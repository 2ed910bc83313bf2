/** `get` (SearchService.java:261-287): picks the item the query names exactly,
    or else groups the found items by catalogue name. */
module Grouper {
  import opened Wrappers
  import opened JavaText
  import opened Model

  /** The query text with every `?` removed, as compared against item names. */
  function Cleaned(name: string): string {
    ReplaceAll(name, "?", "")
  }

  /** The item is the one the query names: its name is the whole query, or the
      query starts with its type and ends with its name. */
  predicate IsExact(cleaned: string, item: IndexedItem) {
    cleaned == item.name || (EndsWith(cleaned, item.name) && StartsWith(cleaned, item.itemType))
  }

  /** Position of the last exactly named item, or -1 when there is none. */
  function LastExactIndex(list: seq<IndexedItem>, cleaned: string): (r: int)
    ensures -1 <= r < |list|
    ensures r >= 0 ==> IsExact(cleaned, list[r])
    ensures forall j :: r < j < |list| ==> !IsExact(cleaned, list[j])
  {
    if list == [] then -1
    else if IsExact(cleaned, list[|list| - 1]) then |list| - 1
    else LastExactIndex(list[..|list| - 1], cleaned)
  }

  /** The names of the catalogues the items belong to. */
  ghost function Catalogues(list: seq<IndexedItem>): set<string> {
    set i | 0 <= i < |list| :: list[i].catalogue
  }

  /** The items of one catalogue, in input order. */
  function ItemsOf(list: seq<IndexedItem>, catalogue: string): (r: seq<IndexedItem>)
    ensures |r| <= |list|
    ensures forall x :: x in r <==> x in list && x.catalogue == catalogue
  {
    if list == [] then []
    else (if list[0].catalogue == catalogue then [list[0]] else []) + ItemsOf(list[1..], catalogue)
  }

  lemma {:induction false} ItemsOfSnoc(list: seq<IndexedItem>, x: IndexedItem)
    ensures forall c :: ItemsOf(list + [x], c) == ItemsOf(list, c) + (if x.catalogue == c then [x] else [])
  {
    if list == [] {
      assert list + [x] == [x];
    } else {
      assert (list + [x])[1..] == list[1..] + [x];
      ItemsOfSnoc(list[1..], x);
    }
  }

  lemma CatalogueOfGroupMember(list: seq<IndexedItem>, catalogue: string)
    ensures ItemsOf(list, catalogue) != [] ==> catalogue in Catalogues(list)
  {
    if ItemsOf(list, catalogue) != [] {
      var y := ItemsOf(list, catalogue)[0];
      assert y in ItemsOf(list, catalogue);
      var i :| 0 <= i < |list| && list[i] == y;
    }
  }

  /** The `computeIfAbsent(...).add(...)` loop: the map from catalogue name to
      the items found in that catalogue, each list in input order. */
  function BuildGroups(list: seq<IndexedItem>): (m: map<string, seq<IndexedItem>>)
  {
    if list == [] then map[]
    else
      var m := BuildGroups(list[..|list| - 1]);
      var x := list[|list| - 1];
      m[x.catalogue := (if x.catalogue in m then m[x.catalogue] else []) + [x]]
  }

  lemma CataloguesSnoc(list: seq<IndexedItem>, x: IndexedItem)
    ensures Catalogues(list + [x]) == Catalogues(list) + {x.catalogue}
  {
    var l := list + [x];
    forall c | c in Catalogues(l) ensures c in Catalogues(list) + {x.catalogue} {
      var i :| 0 <= i < |l| && l[i].catalogue == c;
      if i < |list| { assert list[i] == l[i]; }
    }
    forall c | c in Catalogues(list) ensures c in Catalogues(l) {
      var i :| 0 <= i < |list| && list[i].catalogue == c;
      assert l[i] == list[i];
    }
    assert l[|list|] == x;
  }

  /** Every catalogue name of the input is a key of the grouping, and no other. */
  lemma {:induction false} BuildGroupsKeys(list: seq<IndexedItem>)
    ensures BuildGroups(list).Keys == Catalogues(list)
  {
    if list != [] {
      var prefix := list[..|list| - 1];
      assert list == prefix + [list[|list| - 1]];
      BuildGroupsKeys(prefix);
      CataloguesSnoc(prefix, list[|list| - 1]);
    }
  }

  /** Each key of the grouping holds exactly that catalogue's items, in input order. */
  lemma {:induction false} BuildGroupsPartitions(list: seq<IndexedItem>)
    ensures BuildGroups(list).Keys == Catalogues(list)
    ensures forall k :: k in BuildGroups(list) ==> BuildGroups(list)[k] == ItemsOf(list, k)
  {
    BuildGroupsKeys(list);
    if list != [] {
      var prefix := list[..|list| - 1];
      var x := list[|list| - 1];
      assert list == prefix + [x];
      BuildGroupsPartitions(prefix);
      ItemsOfSnoc(prefix, x);
      var m := BuildGroups(prefix);
      forall k | k in BuildGroups(list) ensures BuildGroups(list)[k] == ItemsOf(list, k) {
        if k == x.catalogue {
          if k !in m {
            CatalogueOfGroupMember(prefix, k);
          }
        } else {
          assert BuildGroups(list)[k] == m[k];
        }
      }
    }
  }

  /** The source's null brand. */
  function BrandOrNull(brand: string): (r: Option<string>)
    ensures r.None? <==> brand == ""
    ensures r.Some? ==> r.value == brand
  {
    if brand == "" then None else Some(brand)
  }

  /** One group per key, in the given key order. */
  function Groups(m: map<string, seq<IndexedItem>>, keys: seq<string>, brand: Option<string>): (r: seq<CatalogueGroup>)
    requires forall i :: 0 <= i < |keys| ==> keys[i] in m && m[keys[i]] != []
    ensures |r| == |keys|
    ensures forall i :: 0 <= i < |keys| ==>
      r[i] == CatalogueGroup(keys[i], m[keys[i]][0].catalogueId, Some(m[keys[i]]), brand)
  {
    if keys == [] then []
    else [CatalogueGroup(keys[0], m[keys[0]][0].catalogueId, Some(m[keys[0]]), brand)] + Groups(m, keys[1..], brand)
  }

  lemma {:induction false} RepeatCounts(keys: seq<string>, i: int, j: int)
    requires 0 <= i < j < |keys|
    ensures keys[i] == keys[j] ==> multiset(keys)[keys[j]] >= 2
  {
    var x := keys[j];
    assert keys == keys[..j] + [x] + keys[j + 1..];
    assert keys[i] in keys[..j];
  }

  /** A `HashMap` key order lists every key once. */
  lemma {:induction false} OrderedKeysAreDistinct(keys: seq<string>, ks: set<string>)
    requires multiset(keys) == multiset(ks)
    ensures forall i :: 0 <= i < |keys| ==> keys[i] in ks
    ensures forall i, j :: 0 <= i < j < |keys| ==> keys[i] != keys[j]
    ensures |keys| == |ks|
  {
    forall i | 0 <= i < |keys| ensures keys[i] in ks {
      assert keys[i] in multiset(keys);
    }
    forall i, j | 0 <= i < j < |keys| ensures keys[i] != keys[j] {
      RepeatCounts(keys, i, j);
    }
    assert |multiset(keys)| == |keys|;
  }

  lemma GroupsNonEmpty(list: seq<IndexedItem>)
    ensures forall k :: k in BuildGroups(list) ==> BuildGroups(list)[k] != []
  {
    BuildGroupsPartitions(list);
    forall k | k in BuildGroups(list) ensures BuildGroups(list)[k] != [] {
      var i :| 0 <= i < |list| && list[i].catalogue == k;
      assert list[i] in ItemsOf(list, k);
    }
  }

  /** The groups of the no-exact-match case, in `HashMap` key order. */
  function Partition(list: seq<IndexedItem>, brand: Option<string>, order: set<string> -> seq<string>): (r: seq<CatalogueGroup>)
    requires ValidOrder(order)
  {
    var m := BuildGroups(list);
    var keys := order(m.Keys);
    OrderedKeysAreDistinct(keys, m.Keys);
    GroupsNonEmpty(list);
    Groups(m, keys, brand)
  }

  /** `get(list, name, brand)`: the exactly named item alone if there is one
      (the last one when several qualify), otherwise one group per catalogue
      name in `HashMap` key order. Whatever the order, a non-empty input
      gives at least one group, no group has a null or empty item list, and
      every group carries the brand with "" read as null. */
  function Get(list: seq<IndexedItem>, name: string, brand: string, order: set<string> -> seq<string>): (r: seq<CatalogueGroup>)
    requires ValidOrder(order)
    ensures |r| == 0 <==> list == []
    ensures forall g :: g in r ==> g.brand == BrandOrNull(brand) && g.items.Some? && g.items.value != []
  {
    var e := LastExactIndex(list, Cleaned(name));
    if e >= 0 then [CatalogueGroup(list[e].catalogue, list[e].catalogueId, Some([list[e]]), BrandOrNull(brand))]
    else
      PartitionGroups(list, BrandOrNull(brand), order);
      assert list != [] ==> list[0].catalogue in Catalogues(list);
      Partition(list, BrandOrNull(brand), order)
  }

  /** The group `get` builds for one catalogue: all of that catalogue's items
      in input order, tagged with the first one's catalogue id. */
  ghost predicate IsGroupOf(g: CatalogueGroup, list: seq<IndexedItem>, brand: Option<string>) {
    var items := ItemsOf(list, g.catalogue);
    items != [] && g.items == Some(items) && g.catalogueId == items[0].catalogueId && g.brand == brand
  }

  /** When the query names an item exactly, `get` returns that item alone in
      its own catalogue group; when several qualify, the last one. */
  lemma GetExactLastWins(list: seq<IndexedItem>, name: string, brand: string, order: set<string> -> seq<string>)
    requires ValidOrder(order)
    requires exists i :: 0 <= i < |list| && IsExact(Cleaned(name), list[i])
    ensures exists e :: (0 <= e < |list| && IsExact(Cleaned(name), list[e])
      && (forall j :: e < j < |list| ==> !IsExact(Cleaned(name), list[j]))
      && Get(list, name, brand, order)
         == [CatalogueGroup(list[e].catalogue, list[e].catalogueId, Some([list[e]]), BrandOrNull(brand))])
  {
    var e := LastExactIndex(list, Cleaned(name));
    assert 0 <= e;
  }

  /** With no exact match, `get` partitions its input by catalogue name: the
      result holds exactly one group per distinct name, each group is all of
      that catalogue's items in input order with the first one's catalogue id,
      and every item lies in the group of its own catalogue and no other. */
  lemma {:induction false} GetPartition(list: seq<IndexedItem>, name: string, brand: string, order: set<string> -> seq<string>)
    requires ValidOrder(order)
    requires forall i :: 0 <= i < |list| ==> !IsExact(Cleaned(name), list[i])
    ensures var r := Get(list, name, brand, order);
      && |r| == |Catalogues(list)|
      && (forall g :: g in r <==> IsGroupOf(g, list, BrandOrNull(brand)))
      && (forall j1, j2 :: 0 <= j1 < j2 < |r| ==> r[j1].catalogue != r[j2].catalogue)
      && (forall i, j :: 0 <= i < |list| && 0 <= j < |r| ==>
            (list[i] in r[j].items.value <==> list[i].catalogue == r[j].catalogue))
  {
    var r := Get(list, name, brand, order);
    assert r == Partition(list, BrandOrNull(brand), order);
    PartitionGroups(list, BrandOrNull(brand), order);
    forall i, j | 0 <= i < |list| && 0 <= j < |r|
      ensures list[i] in r[j].items.value <==> list[i].catalogue == r[j].catalogue
    {
      assert r[j] in r;
    }
  }

  lemma {:induction false} PartitionGroups(list: seq<IndexedItem>, b: Option<string>, order: set<string> -> seq<string>)
    requires ValidOrder(order)
    ensures var r := Partition(list, b, order);
      && |r| == |Catalogues(list)|
      && (forall g :: g in r <==> IsGroupOf(g, list, b))
      && (forall j1, j2 :: 0 <= j1 < j2 < |r| ==> r[j1].catalogue != r[j2].catalogue)
  {
    var m := BuildGroups(list);
    var keys := order(m.Keys);
    BuildGroupsPartitions(list);
    OrderedKeysAreDistinct(keys, m.Keys);
    GroupsNonEmpty(list);
    forall k | k in m ensures k in keys {
      assert k in multiset(keys);
    }
    GroupsOfPartition(list, m, keys, b);
  }

  /** Every group built for a key is the group of that key's catalogue. */
  lemma GroupsAreGroupsOf(list: seq<IndexedItem>, m: map<string, seq<IndexedItem>>, keys: seq<string>, b: Option<string>)
    requires forall k :: k in m ==> m[k] == ItemsOf(list, k) && m[k] != []
    requires forall i :: 0 <= i < |keys| ==> keys[i] in m
    ensures forall g :: g in Groups(m, keys, b) ==> IsGroupOf(g, list, b)
  {
    var r := Groups(m, keys, b);
    forall g | g in r ensures IsGroupOf(g, list, b) {
      var j :| 0 <= j < |r| && r[j] == g;
      var k := keys[j];
      assert m[k] == ItemsOf(list, k);
      assert g == CatalogueGroup(k, m[k][0].catalogueId, Some(m[k]), b);
    }
  }

  /** Every catalogue's group is built when the keys cover the map. */
  lemma GroupsCoverCatalogues(list: seq<IndexedItem>, m: map<string, seq<IndexedItem>>, keys: seq<string>, b: Option<string>)
    requires m.Keys == Catalogues(list)
    requires forall k :: k in m ==> m[k] == ItemsOf(list, k) && m[k] != []
    requires forall i :: 0 <= i < |keys| ==> keys[i] in m
    requires forall k :: k in m ==> k in keys
    ensures forall g :: IsGroupOf(g, list, b) ==> g in Groups(m, keys, b)
  {
    var r := Groups(m, keys, b);
    forall g | IsGroupOf(g, list, b) ensures g in r {
      var c := g.catalogue;
      CatalogueOfGroupMember(list, c);
      assert c in m;
      var j :| 0 <= j < |keys| && keys[j] == c;
      assert m[c] == ItemsOf(list, c);
      assert r[j] == g;
    }
  }

  /** The groups built from a catalogue map and an ordering of its keys are
      exactly the groups of the partition of the list by catalogue. */
  lemma GroupsOfPartition(list: seq<IndexedItem>, m: map<string, seq<IndexedItem>>, keys: seq<string>, b: Option<string>)
    requires m.Keys == Catalogues(list)
    requires forall k :: k in m ==> m[k] == ItemsOf(list, k) && m[k] != []
    requires forall i :: 0 <= i < |keys| ==> keys[i] in m
    requires forall k :: k in m ==> k in keys
    ensures forall g :: g in Groups(m, keys, b) <==> IsGroupOf(g, list, b)
  {
    GroupsAreGroupsOf(list, m, keys, b);
    GroupsCoverCatalogues(list, m, keys, b);
  }

  /** The set of groups does not depend on the `HashMap` iteration order. */
  lemma GetOrderIrrelevant(list: seq<IndexedItem>, name: string, brand: string,
                           order1: set<string> -> seq<string>, order2: set<string> -> seq<string>)
    requires ValidOrder(order1) && ValidOrder(order2)
    ensures |Get(list, name, brand, order1)| == |Get(list, name, brand, order2)|
    ensures forall g :: g in Get(list, name, brand, order1) <==> g in Get(list, name, brand, order2)
  {
    if LastExactIndex(list, Cleaned(name)) < 0 {
      GetPartition(list, name, brand, order1);
      GetPartition(list, name, brand, order2);
    }
  }

  /** The single pass over the found items (`get`'s loop): it remembers the
      last exactly named item and files every item under its catalogue name. */
  method ScanItems(list: seq<IndexedItem>, name: string) returns (found: Option<IndexedItem>, m: map<string, seq<IndexedItem>>)
    ensures found.None? <==> forall i :: 0 <= i < |list| ==> !IsExact(Cleaned(name), list[i])
    ensures found.Some? ==> exists e :: (0 <= e < |list| && found.value == list[e] && IsExact(Cleaned(name), list[e])
      && forall j :: e < j < |list| ==> !IsExact(Cleaned(name), list[j]))
    ensures m == BuildGroups(list)
  {
    found := None;
    m := map[];
    ghost var cleaned := Cleaned(name);
    ghost var last := -1;
    for i := 0 to |list|
      invariant -1 <= last < i
      invariant last >= 0 ==> IsExact(cleaned, list[last])
      invariant forall j :: last < j < i ==> !IsExact(cleaned, list[j])
      invariant found == (if last >= 0 then Some(list[last]) else None)
      invariant m == BuildGroups(list[..i])
    {
      var item := list[i];
      if IsExact(Cleaned(name), item) {
        found := Some(item);
        last := i;
      }
      BuildGroupsStep(list, i);
      m := m[item.catalogue := (if item.catalogue in m then m[item.catalogue] else []) + [item]];
    }
    assert list[..|list|] == list;
  }

  lemma BuildGroupsStep(list: seq<IndexedItem>, i: nat)
    requires i < |list|
    ensures var m := BuildGroups(list[..i]);
      BuildGroups(list[..i + 1]) == m[list[i].catalogue := (if list[i].catalogue in m then m[list[i].catalogue] else []) + [list[i]]]
  {
    assert list[..i + 1][..i] == list[..i];
  }
}
